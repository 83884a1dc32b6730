/** The numeric helpers of web/stats.js: `sum`, `avg` and `max` over the
    millisecond counts and byte sizes found in the logs (integers here), and
    the `Math.round` / `Math.ceil` of a quotient they are combined with. */
module StatNumbers {
  import opened Js

  /** The total of `xs`. */
  function Total(xs: seq<int>): int
  {
    if xs == [] then 0 else Total(xs[..|xs| - 1]) + xs[|xs| - 1]
  }

  lemma {:induction false} TotalAppend(a: seq<int>, b: seq<int>)
    ensures Total(a + b) == Total(a) + Total(b)
  {
    if b != [] {
      var b' := b[..|b| - 1];
      assert (a + b)[..|a + b| - 1] == a + b';
      TotalAppend(a, b');
    } else {
      assert a + b == a;
    }
  }

  /** A total of non-negative numbers is at least each of them. */
  lemma {:induction false} TotalBounds(xs: seq<int>, k: nat)
    requires k < |xs|
    requires forall i :: 0 <= i < |xs| ==> xs[i] >= 0
    ensures 0 <= xs[k] <= Total(xs)
  {
    var init := xs[..|xs| - 1];
    if k < |xs| - 1 {
      TotalBounds(init, k);
    } else if init != [] {
      TotalBounds(init, 0);
    }
  }

  /** The number of non-zero elements of `xs`. */
  function NonZeros(xs: seq<int>): (n: nat)
    ensures n <= |xs|
  {
    if xs == [] then 0 else NonZeros(xs[..|xs| - 1]) + (if xs[|xs| - 1] != 0 then 1 else 0)
  }

  /** `null` and an array are told apart: `None` is `null`. */
  function Elements(xs: Option<seq<int>>): seq<int>
  {
    if xs.Some? then xs.value else []
  }

  /** `sum(xs)`: the total, and 0 for `null` or an empty array. */
  method Sum(xs: Option<seq<int>>) returns (total: int)
    ensures total == Total(Elements(xs))
    ensures xs.None? || xs.value == [] ==> total == 0
  {
    total := 0;
    if xs.Some? && |xs.value| > 0 {
      var a := xs.value;
      var i := 0;
      while i < |a|
        invariant i <= |a|
        invariant total == Total(a[..i])
      {
        assert a[..i + 1][..i] == a[..i];
        total := total + a[i];
        i := i + 1;
      }
      assert a[..i] == a;
    }
  }

  /** `Math.round(a / n)` for a positive `n`: the quotient, halves rounded up. */
  function RoundDiv(a: int, n: int): int
    requires n > 0
  {
    (2 * a + n) / (2 * n)
  }

  /** The rounded quotient is the integer nearest to `a / n`. */
  lemma RoundDivNearest(a: int, n: int)
    requires n > 0
    ensures n * (2 * RoundDiv(a, n) - 1) <= 2 * a < n * (2 * RoundDiv(a, n) + 1)
  {
    DivBounds(2 * a + n, 2 * n);
  }

  /** Euclid for a positive divisor. */
  lemma DivBounds(x: int, d: int)
    requires d > 0
    ensures d * (x / d) <= x < d * (x / d) + d
  {
  }

  /** `Math.ceil(a / d)` for a positive `d`. */
  function CeilDiv(a: int, d: int): int
    requires d > 0
  {
    (a + d - 1) / d
  }

  /** The ceiling is the least integer at or above `a / d`. */
  lemma CeilDivLeast(a: int, d: int)
    requires d > 0
    ensures d * (CeilDiv(a, d) - 1) < a <= d * CeilDiv(a, d)
  {
    DivBounds(a + d - 1, d);
  }

  /** What `avg(xs)` returns: 0 when no element is non-zero, otherwise the
      rounded total over the number of non-zero elements, so zeros count in
      the total but not in the divisor. */
  function Average(xs: seq<int>): (r: int)
    ensures NonZeros(xs) == 0 ==> r == 0
  {
    if NonZeros(xs) == 0 then 0 else RoundDiv(Total(xs), NonZeros(xs))
  }

  /** The average is the integer nearest to the total over the number of
      non-zero elements. */
  lemma AverageNearest(xs: seq<int>)
    requires NonZeros(xs) > 0
    ensures NonZeros(xs) * (2 * Average(xs) - 1) <= 2 * Total(xs) < NonZeros(xs) * (2 * Average(xs) + 1)
  {
    RoundDivNearest(Total(xs), NonZeros(xs));
  }

  /** `avg(xs)`. */
  method Avg(xs: Option<seq<int>>) returns (r: int)
    ensures r == Average(Elements(xs))
    ensures NonZeros(Elements(xs)) == 0 ==> r == 0
  {
    var total := 0;
    var n := 0;
    var a := Elements(xs);
    if xs.Some? && |xs.value| > 0 {
      var i := 0;
      while i < |a|
        invariant i <= |a|
        invariant total == Total(a[..i]) && n == NonZeros(a[..i])
      {
        assert a[..i + 1][..i] == a[..i];
        total := total + a[i];
        if a[i] != 0 {
          n := n + 1;
        }
        i := i + 1;
      }
      assert a[..i] == a;
    }
    if n == 0 {
      return 0;
    }
    r := RoundDiv(total, n);
  }

  /** What `max(xs)` returns: the largest element, but never below the
      starting value 0. */
  function Largest(xs: seq<int>): (m: int)
    ensures m >= 0
    ensures forall i :: 0 <= i < |xs| ==> xs[i] <= m
    ensures m == 0 || exists i :: 0 <= i < |xs| && xs[i] == m
  {
    if xs == [] then 0
    else
      var init := xs[..|xs| - 1];
      var m0 := Largest(init);
      assert forall i :: 0 <= i < |init| ==> xs[i] == init[i];
      if xs[|xs| - 1] > m0 then xs[|xs| - 1] else m0
  }

  /** `max(xs)`. */
  method Max(xs: seq<int>) returns (m: int)
    ensures m == Largest(xs)
  {
    m := 0;
    var i := 0;
    while i < |xs|
      invariant i <= |xs|
      invariant m == Largest(xs[..i])
    {
      assert xs[..i + 1][..i] == xs[..i];
      if xs[i] > m {
        m := xs[i];
      }
      i := i + 1;
    }
    assert xs[..i] == xs;
  }
}
