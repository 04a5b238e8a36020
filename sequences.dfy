/** List operations the services use: a loop that stops at the first item that
    throws, `filter`, `limit`, `distinct` on an ordered stream, and a stable
    `sorted` by a descending integer key. */
module Sequences {
  import opened Wrappers

  // ---------------------------------------------------------------------
  // parsing a list until the first item that throws
  // ---------------------------------------------------------------------

  /** Applies `f` to the items in order and keeps the results up to the first
      item on which it fails (None); the items after that one are never
      parsed. This is what a Java loop appending to a list does when the
      `catch` for its exceptions sits outside the loop. */
  function ParseWhile<A, B>(f: A -> Option<B>, xs: seq<A>): (r: seq<B>)
    ensures |r| <= |xs|
  {
    if xs == [] then []
    else
      match f(xs[0])
      case None => []
      case Some(b) => [b] + ParseWhile(f, xs[1..])
  }

  /** Result `i` is the parse of item `i`, and the loop stops only at an item
      that fails. */
  lemma {:induction false} ParseWhileParses<A, B>(f: A -> Option<B>, xs: seq<A>)
    ensures var r := ParseWhile(f, xs);
      (forall i :: 0 <= i < |r| ==> f(xs[i]) == Some(r[i])) &&
      (|r| < |xs| ==> f(xs[|r|]).None?)
  {
    if xs != [] && f(xs[0]).Some? {
      ParseWhileParses(f, xs[1..]);
      var r := ParseWhile(f, xs);
      assert forall i :: 1 <= i < |r| ==> xs[1..][i - 1] == xs[i] && r[i] == ParseWhile(f, xs[1..])[i - 1];
    }
  }

  /** An exception on item `k` yields exactly the results for items 0..k-1. */
  lemma ParseWhileStopsAt<A, B>(f: A -> Option<B>, xs: seq<A>, k: nat)
    requires k < |xs| && f(xs[k]).None?
    requires forall i :: 0 <= i < k ==> f(xs[i]).Some?
    ensures |ParseWhile(f, xs)| == k
    ensures forall i :: 0 <= i < k ==> ParseWhile(f, xs)[i] == f(xs[i]).value
  {
    ParseWhileParses(f, xs);
  }

  /** When no item fails, every item is parsed. */
  lemma ParseWhileAll<A, B>(f: A -> Option<B>, xs: seq<A>)
    requires forall i :: 0 <= i < |xs| ==> f(xs[i]).Some?
    ensures |ParseWhile(f, xs)| == |xs|
  {
    ParseWhileParses(f, xs);
  }

  /** Unfolding one step of the loop: what the loop has collected so far plus
      the rest of the list. The loops of the parsers keep this as their
      invariant. */
  lemma ParseWhileStep<A, B>(f: A -> Option<B>, xs: seq<A>, i: nat)
    requires i < |xs|
    ensures f(xs[i]).None? ==> ParseWhile(f, xs[i..]) == []
    ensures f(xs[i]).Some? ==> ParseWhile(f, xs[i..]) == [f(xs[i]).value] + ParseWhile(f, xs[i + 1..])
  {
    assert xs[i..][1..] == xs[i + 1..];
  }

  /** The parsing loop of the services: each item is parsed and appended in
      turn, and an item that throws ends the loop, because the `catch` sits
      outside it. */
  method ParseEach<A, B>(f: A -> Option<B>, xs: seq<A>) returns (r: seq<B>)
    ensures r == ParseWhile(f, xs)
  {
    r := [];
    var i := 0;
    while i < |xs|
      invariant 0 <= i <= |xs|
      invariant ParseWhile(f, xs) == r + ParseWhile(f, xs[i..])
    {
      ParseWhileStep(f, xs, i);
      var item := f(xs[i]);
      if item.None? {
        return;
      }
      r := r + [item.value];
      i := i + 1;
    }
  }

  /** Applies `f` to every item, in order: a loop whose body cannot throw. */
  function MapAll<A, B>(f: A -> B, xs: seq<A>): (r: seq<B>)
    ensures |r| == |xs|
    ensures forall i :: 0 <= i < |xs| ==> r[i] == f(xs[i])
  {
    seq(|xs|, i requires 0 <= i < |xs| => f(xs[i]))
  }

  /** One more step of such a loop appends the next result. */
  lemma MapAllStep<A, B>(f: A -> B, xs: seq<A>, i: nat)
    requires i < |xs|
    ensures MapAll(f, xs[..i + 1]) == MapAll(f, xs[..i]) + [f(xs[i])]
  {
  }

  // ---------------------------------------------------------------------
  // filter, limit, subsequences
  // ---------------------------------------------------------------------

  /** `r` is `xs` with some items left out, the rest in their original order. */
  predicate IsSubsequence<T(==)>(r: seq<T>, xs: seq<T>)
    decreases |xs|
  {
    r == [] ||
    (xs != [] &&
     ((r[0] == xs[0] && IsSubsequence(r[1..], xs[1..])) || IsSubsequence(r, xs[1..])))
  }

  /** `stream.filter(p)`. */
  function Filter<T(==)>(xs: seq<T>, p: T -> bool): (r: seq<T>)
    ensures |r| <= |xs|
    ensures forall i :: 0 <= i < |r| ==> r[i] in xs && p(r[i])
    ensures forall i :: 0 <= i < |xs| && p(xs[i]) ==> xs[i] in r
    ensures IsSubsequence(r, xs)
  {
    if xs == [] then []
    else
      var rest := Filter(xs[1..], p);
      assert xs == [xs[0]] + xs[1..];
      if p(xs[0]) then
        assert ([xs[0]] + rest)[1..] == rest;
        [xs[0]] + rest
      else rest
  }

  /** `stream.limit(n)`. */
  function Take<T>(xs: seq<T>, n: nat): (r: seq<T>)
    ensures |r| == if |xs| < n then |xs| else n
    ensures r == xs[..|r|]
  {
    if |xs| < n then xs else xs[..n]
  }

  /** Cutting a subsequence short leaves a subsequence. */
  lemma {:induction false} PrefixOfSubsequence<T>(r: seq<T>, xs: seq<T>, n: nat)
    requires IsSubsequence(r, xs) && n <= |r|
    ensures IsSubsequence(r[..n], xs)
    decreases |xs|
  {
    if n == 0 {
    } else if r[0] == xs[0] && IsSubsequence(r[1..], xs[1..]) {
      PrefixOfSubsequence(r[1..], xs[1..], n - 1);
      assert r[..n][1..] == r[1..][..n - 1];
    } else {
      PrefixOfSubsequence(r, xs[1..], n);
    }
  }

  /** The first items of a filtered list are a subsequence of the original. */
  lemma TakeFilterIsSubsequence<T>(xs: seq<T>, p: T -> bool, n: nat)
    ensures IsSubsequence(Take(Filter(xs, p), n), xs)
  {
    var f := Filter(xs, p);
    PrefixOfSubsequence(f, xs, |Take(f, n)|);
  }

  // ---------------------------------------------------------------------
  // distinct
  // ---------------------------------------------------------------------

  predicate NoDuplicates<T(==)>(xs: seq<T>)
  {
    forall i, j :: 0 <= i < j < |xs| ==> xs[i] != xs[j]
  }

  /** The index of the first occurrence of `x`. */
  function IndexOf<T(==)>(xs: seq<T>, x: T): (k: nat)
    requires x in xs
    ensures k < |xs| && xs[k] == x
    ensures forall i :: 0 <= i < k ==> xs[i] != x
  {
    if xs[0] == x then 0 else 1 + IndexOf(xs[1..], x)
  }

  /** Appending an item does not move the first occurrence of anything
      already present. */
  lemma IndexOfAppend<T>(xs: seq<T>, y: T, x: T)
    requires x in xs
    ensures x in xs + [y] && IndexOf(xs + [y], x) == IndexOf(xs, x)
  {
    assert forall i :: 0 <= i < |xs| ==> (xs + [y])[i] == xs[i];
  }

  /** An item that is new at the end has its first occurrence there. */
  lemma IndexOfNewLast<T>(xs: seq<T>, y: T)
    requires y !in xs
    ensures y in xs + [y] && IndexOf(xs + [y], y) == |xs|
  {
    assert forall i :: 0 <= i < |xs| ==> (xs + [y])[i] == xs[i];
  }

  /** `stream.distinct()` on an ordered stream: the first occurrence of every
      item, in the order of those first occurrences. */
  function Distinct<T(==)>(xs: seq<T>): (r: seq<T>)
    ensures forall i :: 0 <= i < |r| ==> r[i] in xs
    ensures forall i :: 0 <= i < |xs| ==> xs[i] in r
    ensures NoDuplicates(r)
    decreases |xs|
  {
    if xs == [] then []
    else
      var init := xs[..|xs| - 1];
      assert xs == init + [xs[|xs| - 1]];
      var d := Distinct(init);
      if xs[|xs| - 1] in d then d else d + [xs[|xs| - 1]]
  }

  /** The items of `distinct()` come in the order of their first occurrence. */
  lemma {:induction false} DistinctKeepsFirstOccurrenceOrder<T>(xs: seq<T>)
    ensures forall i, j :: 0 <= i < j < |Distinct(xs)| ==>
      IndexOf(xs, Distinct(xs)[i]) < IndexOf(xs, Distinct(xs)[j])
    decreases |xs|
  {
    if xs != [] {
      var init := xs[..|xs| - 1];
      var last := xs[|xs| - 1];
      assert xs == init + [last];
      DistinctKeepsFirstOccurrenceOrder(init);
      var d := Distinct(init);
      forall x | x in init ensures IndexOf(xs, x) == IndexOf(init, x) {
        IndexOfAppend(init, last, x);
      }
      if last !in d {
        IndexOfNewLast(init, last);
        assert Distinct(xs) == d + [last];
      }
    }
  }

  // ---------------------------------------------------------------------
  // sorted by a descending key, stable
  // ---------------------------------------------------------------------

  predicate SortedDesc<T>(xs: seq<T>, key: T -> int)
  {
    forall i, j :: 0 <= i < j < |xs| ==> key(xs[i]) >= key(xs[j])
  }

  /** The items whose key is `k`, in their order in `xs`. */
  function WithKey<T>(xs: seq<T>, key: T -> int, k: int): seq<T>
  {
    if xs == [] then []
    else (if key(xs[0]) == k then [xs[0]] else []) + WithKey(xs[1..], key, k)
  }

  /** Picking the items with one key commutes with concatenation. */
  lemma {:induction false} WithKeyAppend<T>(a: seq<T>, b: seq<T>, key: T -> int, k: int)
    ensures WithKey(a + b, key, k) == WithKey(a, key, k) + WithKey(b, key, k)
  {
    if a == [] {
      assert a + b == b;
    } else {
      var ab := a + b;
      var head := if key(a[0]) == k then [a[0]] else [];
      assert ab != [] && ab[0] == a[0];
      assert ab[1..] == a[1..] + b;
      WithKeyAppend(a[1..], b, key, k);
      calc {
        WithKey(ab, key, k);
        head + WithKey(ab[1..], key, k);
        head + (WithKey(a[1..], key, k) + WithKey(b, key, k));
        (head + WithKey(a[1..], key, k)) + WithKey(b, key, k);
      }
    }
  }

  /** Puts `x` in front of the first item whose key is not larger than its own. */
  function Insert<T>(x: T, s: seq<T>, key: T -> int): (r: seq<T>)
    ensures |r| == |s| + 1
  {
    if s == [] then [x]
    else if key(s[0]) > key(x) then [s[0]] + Insert(x, s[1..], key)
    else [x] + s
  }

  lemma {:induction false} InsertPermutes<T>(x: T, s: seq<T>, key: T -> int)
    ensures multiset(Insert(x, s, key)) == multiset(s) + multiset{x}
  {
    if s != [] {
      assert s == [s[0]] + s[1..];
      if key(s[0]) > key(x) {
        InsertPermutes(x, s[1..], key);
      }
    }
  }

  lemma {:induction false} InsertSorted<T>(x: T, s: seq<T>, key: T -> int)
    requires SortedDesc(s, key)
    ensures SortedDesc(Insert(x, s, key), key)
  {
    if s != [] && key(s[0]) > key(x) {
      var rest := Insert(x, s[1..], key);
      assert SortedDesc(s[1..], key);
      InsertSorted(x, s[1..], key);
      InsertPermutes(x, s[1..], key);
      forall j | 0 <= j < |rest| ensures key(s[0]) >= key(rest[j]) {
        assert rest[j] in multiset(rest);
        assert rest[j] == x || rest[j] in s[1..];
      }
      assert Insert(x, s, key) == [s[0]] + rest;
    }
  }

  lemma {:induction false} InsertWithKey<T>(x: T, s: seq<T>, key: T -> int, k: int)
    ensures WithKey(Insert(x, s, key), key, k) ==
      if key(x) == k then [x] + WithKey(s, key, k) else WithKey(s, key, k)
  {
    if s == [] {
    } else if key(s[0]) > key(x) {
      var rest := Insert(x, s[1..], key);
      var mine := if key(x) == k then [x] else [];
      var first := WithKey([s[0]], key, k);
      var none: seq<T> := [];
      assert [s[0]][1..] == none && WithKey(none, key, k) == [];
      assert first == (if key(s[0]) == k then [s[0]] else []) + WithKey(none, key, k);
      assert Insert(x, s, key) == [s[0]] + rest;
      WithKeyAppend([s[0]], rest, key, k);
      InsertWithKey(x, s[1..], key, k);
      assert WithKey(rest, key, k) == mine + WithKey(s[1..], key, k);
      assert s == [s[0]] + s[1..];
      WithKeyAppend([s[0]], s[1..], key, k);
      assert WithKey(s, key, k) == first + WithKey(s[1..], key, k);
      if key(x) == k {
        assert first == [];
        assert WithKey(Insert(x, s, key), key, k) == [x] + WithKey(s[1..], key, k);
      } else {
        assert WithKey(Insert(x, s, key), key, k) == first + WithKey(s[1..], key, k);
      }
    } else {
      assert Insert(x, s, key) == [x] + s;
      WithKeyAppend([x], s, key, k);
    }
  }

  /** `stream.sorted(comparator)` with a comparator that orders by a key from
      largest to smallest; Java's sort is stable, so items with equal keys keep
      their order. */
  function SortDesc<T>(xs: seq<T>, key: T -> int): (r: seq<T>)
    ensures |r| == |xs|
    ensures multiset(r) == multiset(xs)
    ensures SortedDesc(r, key)
    ensures forall k :: WithKey(r, key, k) == WithKey(xs, key, k)
  {
    if xs == [] then []
    else
      var rest := SortDesc(xs[1..], key);
      assert xs == [xs[0]] + xs[1..];
      InsertPermutes(xs[0], rest, key);
      InsertSorted(xs[0], rest, key);
      assert forall k :: WithKey(Insert(xs[0], rest, key), key, k) == WithKey(xs, key, k) by {
        forall k ensures WithKey(Insert(xs[0], rest, key), key, k) == WithKey(xs, key, k) {
          InsertWithKey(xs[0], rest, key, k);
          WithKeyAppend([xs[0]], xs[1..], key, k);
        }
      }
      Insert(xs[0], rest, key)
  }

  /** The first `n` items of the sorted list: at most `n` of them, drawn from
      `xs`, in descending key order, and no item left out has a larger key
      than one taken. */
  lemma TakeOfSortDesc<T>(xs: seq<T>, key: T -> int, n: nat)
    ensures var r := Take(SortDesc(xs, key), n);
      |r| <= n && |r| <= |xs| && (|xs| >= n ==> |r| == n) &&
      multiset(r) <= multiset(xs) && SortedDesc(r, key)
    ensures var r := Take(SortDesc(xs, key), n);
      forall x, i :: x in xs && x !in r && 0 <= i < |r| ==> key(r[i]) >= key(x)
  {
    var s := SortDesc(xs, key);
    var r := Take(s, n);
    assert s == r + s[|r|..];
    assert multiset(s) == multiset(r) + multiset(s[|r|..]);
    forall x, i | x in xs && x !in r && 0 <= i < |r| ensures key(r[i]) >= key(x) {
      assert x in multiset(s);
      var j :| 0 <= j < |s| && s[j] == x;
      assert r[i] == s[i];
    }
  }
}
