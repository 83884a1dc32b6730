/** Sequence specifications shared by the worker and the log digests:
    first-occurrence deduplication (also the key order of an insertion-ordered
    map) and reversal. */
module Seqs {

  /** `xs` with every element after its first occurrence dropped. */
  function Nubbed<T(==)>(xs: seq<T>): seq<T>
  {
    if xs == [] then []
    else
      var init := xs[..|xs| - 1];
      if xs[|xs| - 1] in init then Nubbed(init) else Nubbed(init) + [xs[|xs| - 1]]
  }

  predicate NoDuplicates<T(==)>(xs: seq<T>) {
    forall i, j :: 0 <= i < j < |xs| ==> xs[i] != xs[j]
  }

  /** Deduplication keeps exactly the elements of its input, each once. */
  lemma {:induction false} NubbedProps<T>(xs: seq<T>)
    ensures NoDuplicates(Nubbed(xs))
    ensures forall x :: x in Nubbed(xs) <==> x in xs
  {
    if xs != [] {
      var init := xs[..|xs| - 1];
      NubbedProps(init);
      assert xs == init + [xs[|xs| - 1]];
    }
  }

  /** Deduplicating a prefix gives a prefix of the deduplicated whole, so an
      element whose first occurrence comes earlier also comes earlier in the
      result: first occurrences keep their order. */
  lemma {:induction false} NubbedPrefix<T>(xs: seq<T>, i: nat)
    requires i <= |xs|
    ensures Nubbed(xs[..i]) <= Nubbed(xs)
    decreases |xs| - i
  {
    if i < |xs| {
      NubbedPrefix(xs, i + 1);
      var p := xs[..i + 1];
      assert p[..|p| - 1] == xs[..i];
    } else {
      assert xs[..i] == xs;
    }
  }

  /** `a` first occurs before `b` in `xs` exactly when `a` precedes `b` in `Nubbed(xs)`. */
  lemma NubbedOrder<T>(xs: seq<T>, i: nat, j: nat)
    requires i < j < |xs|
    requires xs[i] !in xs[..i] && xs[j] !in xs[..j]
    ensures exists p, q :: 0 <= p < q < |Nubbed(xs)| && Nubbed(xs)[p] == xs[i] && Nubbed(xs)[q] == xs[j]
  {
    NubbedPrefix(xs, j);
    NubbedPrefix(xs, j + 1);
    NubbedProps(xs[..j]);
    var pre := Nubbed(xs[..j]);
    var xj := xs[..j + 1];
    assert xj[..|xj| - 1] == xs[..j];
    assert Nubbed(xj) == pre + [xs[j]];
    assert xs[i] in xs[..j];
    var p :| 0 <= p < |pre| && pre[p] == xs[i];
    assert Nubbed(xs)[p] == xs[i] && Nubbed(xs)[|pre|] == xs[j];
  }

  /** The result of repeatedly putting the next element at the front (`unshift`). */
  function Reversed<T>(xs: seq<T>): (r: seq<T>)
    ensures |r| == |xs|
  {
    if xs == [] then [] else [xs[|xs| - 1]] + Reversed(xs[..|xs| - 1])
  }

  lemma {:induction false} ReversedAt<T>(xs: seq<T>, k: nat)
    requires k < |xs|
    ensures Reversed(xs)[k] == xs[|xs| - 1 - k]
  {
    if k > 0 {
      ReversedAt(xs[..|xs| - 1], k - 1);
    }
  }

  /** Deduplicating one more element adds it exactly when it is new. */
  lemma NubbedSnoc<T>(xs: seq<T>, x: T)
    ensures Nubbed(xs + [x]) == if x in xs then Nubbed(xs) else Nubbed(xs) + [x]
  {
    assert (xs + [x])[..|xs|] == xs;
  }

  /** Putting one more element at the front. */
  lemma ReversedSnoc<T>(xs: seq<T>, x: T)
    ensures Reversed(xs + [x]) == [x] + Reversed(xs)
  {
    assert (xs + [x])[..|xs|] == xs;
  }

  /** Putting one more element at the back. */
  lemma {:induction false} ReversedCons<T>(x: T, xs: seq<T>)
    ensures Reversed([x] + xs) == Reversed(xs) + [x]
  {
    if xs != [] {
      var init := xs[..|xs| - 1];
      assert ([x] + xs)[..|xs|] == [x] + init;
      ReversedCons(x, init);
    }
  }

  /** Reversing twice gives the sequence back. */
  lemma {:induction false} ReversedTwice<T>(xs: seq<T>)
    ensures Reversed(Reversed(xs)) == xs
  {
    if xs != [] {
      var init := xs[..|xs| - 1];
      ReversedTwice(init);
      ReversedCons(xs[|xs| - 1], Reversed(init));
      assert xs == init + [xs[|xs| - 1]];
    }
  }

  /** `xs.slice(0, n)`. */
  function Take<T>(xs: seq<T>, n: nat): (r: seq<T>)
    ensures |r| <= n && |r| <= |xs|
    ensures |xs| >= n ==> |r| == n
    ensures r <= xs
  {
    if |xs| <= n then xs else xs[..n]
  }

  /** A subset has no more elements than its superset. */
  lemma SubsetCard<T>(a: set<T>, b: set<T>)
    requires a <= b
    ensures |a| <= |b|
    decreases a
  {
    if a != {} {
      var x :| x in a;
      SubsetCard(a - {x}, b - {x});
    }
  }

  /** The elements of `xs`, as a set. */
  function Members<T>(xs: seq<T>): set<T>
  {
    if xs == [] then {} else Members(xs[..|xs| - 1]) + {xs[|xs| - 1]}
  }

  lemma {:induction false} MembersIn<T>(xs: seq<T>)
    ensures forall x :: x in Members(xs) <==> x in xs
  {
    if xs != [] {
      MembersIn(xs[..|xs| - 1]);
      assert xs == xs[..|xs| - 1] + [xs[|xs| - 1]];
    }
  }

  /** A sequence without duplicates has as many distinct elements as it is long. */
  lemma {:induction false} DistinctCard<T>(xs: seq<T>)
    requires NoDuplicates(xs)
    ensures |Members(xs)| == |xs|
  {
    if xs != [] {
      var init := xs[..|xs| - 1];
      DistinctCard(init);
      MembersIn(init);
    }
  }

  /** `f` applied to each of the first `n` elements of `xs`. */
  function MapTo<A, B>(xs: seq<A>, f: A -> B, n: nat): (r: seq<B>)
    requires n <= |xs|
    ensures |r| == n
  {
    if n == 0 then [] else MapTo(xs, f, n - 1) + [f(xs[n - 1])]
  }

  lemma {:induction false} MapToAt<A, B>(xs: seq<A>, f: A -> B, n: nat, k: nat)
    requires k < n <= |xs|
    ensures MapTo(xs, f, n)[k] == f(xs[k])
  {
    if k < n - 1 {
      MapToAt(xs, f, n - 1, k);
    }
  }
}
