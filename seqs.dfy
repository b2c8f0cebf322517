/** Sequence helpers shared by the sorting, filtering and ranking steps of both tools:
    ordering by an integer key, an insertion sort that serves as the reference for
    every sort in the model, an order-keeping filter and `head(n)`. */
module Seqs {

  /** `s` is non-decreasing under `key`. */
  predicate SortedBy<T>(s: seq<T>, key: T -> int)
  {
    forall i, j :: 0 <= i < j < |s| ==> key(s[i]) <= key(s[j])
  }

  /** The keys of `s`, in order. */
  function KeysOf<T>(s: seq<T>, key: T -> int): (r: seq<int>)
    ensures |r| == |s|
    ensures forall i :: 0 <= i < |s| ==> r[i] == key(s[i])
  {
    seq(|s|, i requires 0 <= i < |s| => key(s[i]))
  }


  /** Splitting off the first element of a sequence splits its multiset. */
  lemma HeadTail<T>(s: seq<T>)
    requires s != []
    ensures multiset(s[1..]) == multiset(s) - multiset{s[0]}
    ensures multiset(s) == multiset{s[0]} + multiset(s[1..])
  {
    assert s == [s[0]] + s[1..];
  }

  /** Putting an element no larger than all of a sorted sequence in front keeps it sorted. */
  lemma SortedCons<T>(y: T, t: seq<T>, key: T -> int)
    requires SortedBy(t, key)
    requires forall i :: 0 <= i < |t| ==> key(y) <= key(t[i])
    ensures SortedBy([y] + t, key)
  {
    var r := [y] + t;
    forall i, j | 0 <= i < j < |r| ensures key(r[i]) <= key(r[j]) {
      if i > 0 { assert r[i] == t[i - 1] && r[j] == t[j - 1]; }
      else { assert r[j] == t[j - 1]; }
    }
  }

  /** Puts `x` into the sorted sequence `s` in front of the first element whose key is
      not smaller. */
  function Insert<T>(x: T, s: seq<T>, key: T -> int): (r: seq<T>)
    requires SortedBy(s, key)
    ensures SortedBy(r, key)
    ensures multiset(r) == multiset(s) + multiset{x}
    ensures |r| == |s| + 1
  {
    if s == [] then [x]
    else if key(x) <= key(s[0]) then
      SortedCons(x, s, key);
      [x] + s
    else
      var rest := Insert(x, s[1..], key);
      HeadTail(s);
      assert forall i :: 0 <= i < |rest| ==> key(s[0]) <= key(rest[i]) by {
        forall i | 0 <= i < |rest| ensures key(s[0]) <= key(rest[i]) {
          assert rest[i] in multiset(rest);
          if rest[i] != x {
            assert rest[i] in multiset(s[1..]);
          }
        }
      }
      SortedCons(s[0], rest, key);
      [s[0]] + rest
  }

  /** Insertion sort by `key`: a sorted permutation of `s`. */
  function SortBy<T>(s: seq<T>, key: T -> int): (r: seq<T>)
    ensures SortedBy(r, key)
    ensures multiset(r) == multiset(s)
    ensures |r| == |s|
  {
    if s == [] then []
    else
      assert s == [s[0]] + s[1..];
      Insert(s[0], SortBy(s[1..], key), key)
  }

  /** The elements of `s` that satisfy `p`, in their original order. */
  function Filter<T(!new)>(s: seq<T>, p: T -> bool): (r: seq<T>)
    ensures forall x :: multiset(r)[x] == if p(x) then multiset(s)[x] else 0
    ensures forall i :: 0 <= i < |r| ==> p(r[i])
    ensures |r| <= |s|
  {
    if s == [] then []
    else
      assert s == [s[0]] + s[1..];
      (if p(s[0]) then [s[0]] else []) + Filter(s[1..], p)
  }

  /** pandas `head(n)` for `n >= 0`: the first `n` elements, or all of them. */
  function Take<T>(s: seq<T>, n: nat): (r: seq<T>)
    ensures |r| == if n < |s| then n else |s|
    ensures r <= s
  {
    if n < |s| then s[..n] else s
  }

  /** `r` is a top-`limit` selection from `cands` by ascending `key`: as long as it can
      be, made of candidates, ordered by key, and no candidate left out has a smaller
      key than one taken. The relative order of equal keys is left open. */
  predicate IsTopBy<T(==)>(r: seq<T>, cands: seq<T>, key: T -> int, limit: nat)
  {
    && |r| == (if limit < |cands| then limit else |cands|)
    && multiset(r) <= multiset(cands)
    && SortedBy(r, key)
    && forall x, i :: x in multiset(cands) - multiset(r) && 0 <= i < |r| ==> key(r[i]) <= key(x)
  }

  /** Removing the element at `k` removes one copy of it from the multiset. */
  lemma RemoveAt<T>(s: seq<T>, k: nat)
    requires k < |s|
    ensures multiset(s[..k] + s[k + 1..]) == multiset(s) - multiset{s[k]}
  {
    assert s == s[..k] + [s[k]] + s[k + 1..];
  }

  /** In a sorted sequence, no element after position `n` has a smaller key than one
      before it. */
  lemma SortedSplit<T>(s: seq<T>, n: nat, key: T -> int)
    requires SortedBy(s, key) && n <= |s|
    ensures SortedBy(s[..n], key)
    ensures forall x, i :: x in multiset(s[n..]) && 0 <= i < n ==> key(s[i]) <= key(x)
  {
    forall x, i | x in multiset(s[n..]) && 0 <= i < n ensures key(s[i]) <= key(x) {
      var k :| 0 <= k < |s[n..]| && s[n..][k] == x;
      assert s[n + k] == x;
    }
  }

  /** Sorting and then taking the first `limit` elements selects the top `limit`. */
  lemma TakeOfSortedIsTop<T>(cands: seq<T>, key: T -> int, limit: nat)
    ensures IsTopBy(Take(SortBy(cands, key), limit), cands, key, limit)
  {
    var s := SortBy(cands, key);
    var r := Take(s, limit);
    var n := |r|;
    assert r == s[..n];
    assert s == r + s[n..];
    assert multiset(s) == multiset(r) + multiset(s[n..]);
    SortedSplit(s, n, key);
    forall x, i | x in multiset(cands) - multiset(r) && 0 <= i < |r|
      ensures key(r[i]) <= key(x)
    {
      assert x in multiset(s[n..]);
      assert r[i] == s[i];
    }
  }

  /** The keys of a non-empty sequence are its head's key and its tail's keys. */
  lemma KeysOfCons<T>(a: seq<T>, key: T -> int)
    requires a != []
    ensures multiset(KeysOf(a, key)) == multiset{key(a[0])} + multiset(KeysOf(a[1..], key))
  {
    assert KeysOf(a, key) == [key(a[0])] + KeysOf(a[1..], key);
  }

  /** Removing the element at `k` removes one copy of its key. */
  lemma KeysOfRemoveAt<T>(b: seq<T>, k: nat, key: T -> int)
    requires k < |b|
    ensures multiset(KeysOf(b, key)) == multiset(KeysOf(b[..k] + b[k + 1..], key)) + multiset{key(b[k])}
  {
    var kb := KeysOf(b, key);
    assert KeysOf(b[..k] + b[k + 1..], key) == kb[..k] + kb[k + 1..];
    RemoveAt(kb, k);
    assert kb[k] in multiset(kb);
  }

  /** Equal multisets give equal multisets of keys. */
  lemma {:induction false} KeysOfPermutation<T>(a: seq<T>, b: seq<T>, key: T -> int)
    requires multiset(a) == multiset(b)
    ensures multiset(KeysOf(a, key)) == multiset(KeysOf(b, key))
    decreases |a|
  {
    if a == [] {
      assert b == [] by { assert |multiset(b)| == 0; }
    } else {
      assert a[0] in multiset(b);
      var k :| 0 <= k < |b| && b[k] == a[0];
      HeadTail(a);
      RemoveAt(b, k);
      KeysOfPermutation(a[1..], b[..k] + b[k + 1..], key);
      KeysOfCons(a, key);
      KeysOfRemoveAt(b, k, key);
    }
  }

  /** Two non-decreasing integer sequences with the same multiset are equal. */
  lemma {:induction false} SortedIntsUnique(a: seq<int>, b: seq<int>)
    requires multiset(a) == multiset(b)
    requires SortedBy(a, x => x) && SortedBy(b, x => x)
    ensures a == b
    decreases |a|
  {
    if a == [] {
      assert b == [] by { assert |multiset(b)| == 0; }
    } else {
      assert |b| == |a| by { assert |multiset(b)| == |multiset(a)|; }
      assert a[0] in multiset(b);
      assert b[0] in multiset(a);
      var i :| 0 <= i < |b| && b[i] == a[0];
      var j :| 0 <= j < |a| && a[j] == b[0];
      assert a[0] == b[0];
      HeadTail(a);
      HeadTail(b);
      SortedIntsUnique(a[1..], b[1..]);
    }
  }

  /** Two sorted permutations of one another have the same sequence of keys: whatever a
      sort does with equal keys, the keys come out the same. */
  lemma SortedPermutationsAgreeOnKeys<T>(a: seq<T>, b: seq<T>, key: T -> int)
    requires multiset(a) == multiset(b)
    requires SortedBy(a, key) && SortedBy(b, key)
    ensures KeysOf(a, key) == KeysOf(b, key)
  {
    KeysOfPermutation(a, b, key);
    SortedIntsUnique(KeysOf(a, key), KeysOf(b, key));
  }
}
