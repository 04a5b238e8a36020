/** `Collections.shuffle` on a list, with the random numbers it draws taken as
    given, and the "fetch more, shuffle, keep the first `count`" selection the
    recommendation services make with it. */
module Shuffle {
  import opened Wrappers
  import opened Text

  /** The random source. `draw(seed, k, bound)` stands for the result of the
      `k`-th call `nextInt(bound)` (counting from 0) on a `java.util.Random`
      built from `seed`; which numbers come out is left open. */
  type Draw = (int, nat, nat) -> nat

  /** The `k`-th random index below `bound`. */
  function Pick(draw: Draw, seed: int, k: nat, bound: nat): (j: nat)
    requires bound > 0
    ensures j < bound
  {
    draw(seed, k, bound) % bound
  }

  /** `Collections.swap`. */
  function Swap<T>(xs: seq<T>, i: nat, j: nat): (r: seq<T>)
    requires i < |xs| && j < |xs|
    ensures |r| == |xs|
  {
    xs[i := xs[j]][j := xs[i]]
  }

  lemma SwapPermutes<T>(xs: seq<T>, i: nat, j: nat)
    requires i < |xs| && j < |xs|
    ensures multiset(Swap(xs, i, j)) == multiset(xs)
  {
    var ys := xs[i := xs[j]];
    assert multiset(ys) == multiset(xs) - multiset{xs[i]} + multiset{xs[j]};
    assert multiset(ys[j := xs[i]]) == multiset(ys) - multiset{ys[j]} + multiset{xs[i]};
  }

  /** The steps of the shuffle still to come when its loop variable is `i`:
      while `i > 1`, swap element `i - 1` with the next random index below
      `i`. The `k`-th draw is made when `i == |xs| - k`. */
  function Steps<T>(xs: seq<T>, i: nat, draw: Draw, seed: int): (r: seq<T>)
    requires i <= |xs|
    ensures |r| == |xs|
    decreases i
  {
    if i <= 1 then xs
    else Steps(Swap(xs, i - 1, Pick(draw, seed, |xs| - i, i)), i - 1, draw, seed)
  }

  /** One step of the shuffle. */
  lemma StepsUnfold<T>(xs: seq<T>, i: nat, draw: Draw, seed: int)
    requires 1 < i <= |xs|
    ensures Steps(xs, i, draw, seed) == Steps(Swap(xs, i - 1, Pick(draw, seed, |xs| - i, i)), i - 1, draw, seed)
  {
  }

  /** The list after `Collections.shuffle(list, random)`. */
  function Shuffled<T>(xs: seq<T>, draw: Draw, seed: int): (r: seq<T>)
    ensures |r| == |xs|
  {
    Steps(xs, |xs|, draw, seed)
  }

  lemma {:induction false} StepsPermute<T>(xs: seq<T>, i: nat, draw: Draw, seed: int)
    requires i <= |xs|
    ensures multiset(Steps(xs, i, draw, seed)) == multiset(xs)
    decreases i
  {
    if i > 1 {
      var ys := Swap(xs, i - 1, Pick(draw, seed, |xs| - i, i));
      SwapPermutes(xs, i - 1, Pick(draw, seed, |xs| - i, i));
      StepsPermute(ys, i - 1, draw, seed);
    }
  }

  /** A shuffle only reorders the list. */
  lemma ShuffledPermutes<T>(xs: seq<T>, draw: Draw, seed: int)
    ensures multiset(Shuffled(xs, draw, seed)) == multiset(xs)
  {
    StepsPermute(xs, |xs|, draw, seed);
  }

  /** `Collections.swap` on the array: the two items change places. */
  method SwapAt<T>(a: array<T>, i: nat, j: nat)
    requires i < a.Length && j < a.Length
    modifies a
    ensures a[..] == Swap(old(a[..]), i, j)
  {
    a[i], a[j] := a[j], a[i];
  }

  /** `Collections.shuffle` on the array behind an `ArrayList`, in place. */
  method ShuffleInPlace<T>(a: array<T>, draw: Draw, seed: int)
    modifies a
    ensures a[..] == Shuffled(old(a[..]), draw, seed)
    ensures multiset(a[..]) == multiset(old(a[..]))
  {
    ghost var start := a[..];
    var i := a.Length;
    while i > 1
      invariant 0 <= i <= a.Length
      invariant Steps(a[..], i, draw, seed) == Shuffled(start, draw, seed)
      decreases i
    {
      var j := Pick(draw, seed, a.Length - i, i);
      StepsUnfold(a[..], i, draw, seed);
      SwapAt(a, i - 1, j);
      i := i - 1;
    }
    ShuffledPermutes(start, draw, seed);
  }

  /** `list.subList(0, count)` of the shuffled list. */
  function Sample<T>(xs: seq<T>, count: nat, draw: Draw, seed: int): (r: seq<T>)
    requires count <= |xs|
    ensures |r| == count
  {
    Shuffled(xs, draw, seed)[..count]
  }

  /** The sample draws `count` items from the list, none more often than it
      occurs there. */
  lemma SampleDrawsFromList<T>(xs: seq<T>, count: nat, draw: Draw, seed: int)
    requires count <= |xs|
    ensures |Sample(xs, count, draw, seed)| == count
    ensures multiset(Sample(xs, count, draw, seed)) <= multiset(xs)
  {
    var s := Shuffled(xs, draw, seed);
    ShuffledPermutes(xs, draw, seed);
    assert s == s[..count] + s[count..];
  }

  /** `Math.max(count * 10, 50)` in 32-bit arithmetic: how many rows a
      sampling service asks its provider for. */
  function FetchCount(count: int): (r: int)
    requires IsInt32(count)
    ensures IsInt32(r) && r >= 50
    ensures -214748364 <= count <= 214748364 ==> r == if count * 10 > 50 then count * 10 else 50
  {
    var tenfold := Wrap32(count * 10);
    if tenfold > 50 then tenfold else 50
  }

  /** The selection `if (all.size() > count) { shuffle(all, random); return
      all.subList(0, count); } return all;`. None where `subList` throws, which
      is when `count` is negative. */
  function Selection<T>(all: seq<T>, count: int, draw: Draw, seed: int): (r: Option<seq<T>>)
    ensures r.None? <==> |all| > count && count < 0
  {
    if |all| > count then
      if count < 0 then None else Some(Sample(all, count, draw, seed))
    else Some(all)
  }

  /** What the selection promises: `count` items drawn from the list without
      repetition when there are more than `count`, the whole list otherwise. */
  lemma SelectionDrawsFromList<T>(all: seq<T>, count: int, draw: Draw, seed: int)
    ensures 0 <= count < |all| ==>
      Selection(all, count, draw, seed).Some? &&
      |Selection(all, count, draw, seed).value| == count &&
      multiset(Selection(all, count, draw, seed).value) <= multiset(all)
    ensures |all| <= count ==> Selection(all, count, draw, seed) == Some(all)
  {
    if 0 <= count < |all| {
      SampleDrawsFromList(all, count, draw, seed);
    }
  }

  /** The selection as the services run it: the list is copied into the
      array behind an `ArrayList`, shuffled there, and cut. */
  method Select<T>(all: seq<T>, count: int, draw: Draw, seed: int) returns (r: Option<seq<T>>)
    ensures r == Selection(all, count, draw, seed)
  {
    if |all| > count {
      if count < 0 {
        return None;
      }
      var a := new T[|all|](i requires 0 <= i < |all| => all[i]);
      assert a[..] == all;
      ShuffleInPlace(a, draw, seed);
      r := Some(a[..count]);
    } else {
      r := Some(all);
    }
  }
}
