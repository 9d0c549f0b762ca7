/**
 * The order statistics behind the outlier capping of the advanced-statistics
 * transform: a sort, the quantile with linear interpolation that pandas'
 * `Series.quantile` uses by default, the interquartile-range fences and the
 * clip of one value to them.
 */
module Stats {

  ghost predicate Sorted(s: seq<real>)
  {
    forall i, j | 0 <= i <= j < |s| :: s[i] <= s[j]
  }

  function Insert(x: real, s: seq<real>): (r: seq<real>)
    requires Sorted(s)
    ensures Sorted(r)
    ensures multiset(r) == multiset(s) + multiset{x}
  {
    if |s| == 0 then [x]
    else if x <= s[0] then [x] + s
    else
      SortedTail(s);
      var rest := Insert(x, s[1..]);
      InsertedAbove(s[0], x, s[1..], rest);
      ConsSorted(s[0], rest);
      assert s == [s[0]] + s[1..];
      [s[0]] + rest
  }

  /** The tail of a sorted sequence is sorted and bounded below by its head. */
  lemma SortedTail(s: seq<real>)
    requires Sorted(s) && 0 < |s|
    ensures Sorted(s[1..])
    ensures forall k | 0 <= k < |s[1..]| :: s[0] <= s[1..][k]
  {
    forall k | 0 <= k < |s[1..]| ensures s[0] <= s[1..][k] {
      assert s[1..][k] == s[k + 1];
    }
  }

  /** A value no larger than any element of a sorted sequence can be put in front of it. */
  lemma ConsSorted(m: real, s: seq<real>)
    requires Sorted(s) && forall k | 0 <= k < |s| :: m <= s[k]
    ensures Sorted([m] + s)
  {
    forall i, j | 0 <= i <= j < |[m] + s| ensures ([m] + s)[i] <= ([m] + s)[j] {
      if 0 < i {
        assert ([m] + s)[i] == s[i - 1] && ([m] + s)[j] == s[j - 1];
      } else {
        assert ([m] + s)[j] == if j == 0 then m else s[j - 1];
      }
    }
  }

  /** Inserting a value no smaller than `m` into values no smaller than `m` keeps every value no smaller than `m`. */
  lemma InsertedAbove(m: real, x: real, s: seq<real>, rest: seq<real>)
    requires m <= x && forall k | 0 <= k < |s| :: m <= s[k]
    requires multiset(rest) == multiset(s) + multiset{x}
    ensures forall k | 0 <= k < |rest| :: m <= rest[k]
  {
    forall k | 0 <= k < |rest| ensures m <= rest[k] {
      assert rest[k] in multiset(rest);
      if rest[k] != x {
        assert rest[k] in multiset(s);
      }
    }
  }

  /** A sorted permutation of `s`. */
  function Sort(s: seq<real>): (r: seq<real>)
    ensures Sorted(r)
    ensures multiset(r) == multiset(s)
  {
    if |s| == 0 then []
    else
      assert s == s[..|s| - 1] + [s[|s| - 1]];
      Insert(s[|s| - 1], Sort(s[..|s| - 1]))
  }

  /** The head of a sorted sequence is its least value. */
  lemma HeadIsLeast(a: seq<real>, x: real)
    requires Sorted(a) && x in multiset(a)
    ensures a[0] <= x
  {
    var i :| 0 <= i < |a| && a[i] == x;
  }

  /** Two sorted arrangements of the same values start with the same value. */
  lemma HeadsAgree(a: seq<real>, b: seq<real>)
    requires Sorted(a) && Sorted(b) && multiset(a) == multiset(b) && 0 < |a| && 0 < |b|
    ensures a[0] == b[0]
  {
    assert a[0] in multiset(a) && b[0] in multiset(b);
    HeadIsLeast(a, b[0]);
    HeadIsLeast(b, a[0]);
  }

  lemma TailMultiset(a: seq<real>)
    requires 0 < |a|
    ensures multiset(a[1..]) == multiset(a) - multiset{a[0]}
  {
    assert a == [a[0]] + a[1..];
  }

  /** Any two sorted permutations of the same values are equal: the sort is the one sorted arrangement. */
  lemma {:induction false} SortedUnique(a: seq<real>, b: seq<real>)
    requires Sorted(a) && Sorted(b) && multiset(a) == multiset(b)
    ensures a == b
    decreases |a|
  {
    assert |a| == |multiset(a)| == |multiset(b)| == |b|;
    if |a| > 0 {
      HeadsAgree(a, b);
      TailMultiset(a);
      TailMultiset(b);
      SortedUnique(a[1..], b[1..]);
      assert a == [a[0]] + a[1..] && b == [b[0]] + b[1..];
    }
  }

  /** `a * p` lies between 0 and `a` for a fraction `p`. */
  lemma ScaleBounds(a: real, p: real)
    requires 0.0 <= a && 0.0 <= p <= 1.0
    ensures 0.0 <= a * p <= a
  {
    assert a * (1.0 - p) >= 0.0;
  }

  lemma ScaleMonotone(a: real, p: real, p': real)
    requires 0.0 <= a && p <= p'
    ensures a * p <= a * p'
  {
    assert a * (p' - p) >= 0.0;
  }

  /** The point a fraction `t` of the way from `a` to `b`. */
  function Lerp(a: real, b: real, t: real): real
  {
    a + (b - a) * t
  }

  lemma LerpBetween(a: real, b: real, t: real)
    requires a <= b && 0.0 <= t <= 1.0
    ensures a <= Lerp(a, b, t) <= b
  {
    var d := b - a;
    ScaleBounds(d, t);
    assert Lerp(a, b, t) == a + d * t;
  }

  lemma LerpMonotone(a: real, b: real, t: real, t': real)
    requires a <= b && t <= t'
    ensures Lerp(a, b, t) <= Lerp(a, b, t')
  {
    var d := b - a;
    ScaleMonotone(d, t, t');
    assert Lerp(a, b, t) == a + d * t && Lerp(a, b, t') == a + d * t';
  }

  /** The virtual index `(n - 1) * p` of the `p`-quantile in a sorted sample of `n` values. */
  function Index(n: nat, p: real): real
  {
    (n - 1) as real * p
  }

  lemma IndexBounds(n: nat, p: real)
    requires 0 < n && 0.0 <= p <= 1.0
    ensures 0.0 <= Index(n, p) <= (n - 1) as real
  {
    ScaleBounds((n - 1) as real, p);
  }

  lemma IndexMonotone(n: nat, p: real, p': real)
    requires 0 < n && p <= p'
    ensures Index(n, p) <= Index(n, p')
  {
    ScaleMonotone((n - 1) as real, p, p');
  }

  /** The position at or just left of the virtual index. */
  function Lower(n: nat, p: real): (lo: nat)
    requires 0 < n && 0.0 <= p <= 1.0
    ensures lo < n
    ensures lo as real <= Index(n, p) < lo as real + 1.0
  {
    IndexBounds(n, p);
    Index(n, p).Floor
  }

  /** The position just right of `lo`, or `lo` itself at the end of the sample. */
  function Upper(n: nat, lo: nat): nat
  {
    if lo + 1 < n then lo + 1 else lo
  }

  /**
   * The `p`-quantile of a non-empty sorted sample with linear interpolation: the
   * virtual index falls between positions `lo` and `lo + 1`, and the result lies
   * between the two values in proportion.
   */
  function Quantile(s: seq<real>, p: real): (q: real)
    requires Sorted(s) && 0 < |s| && 0.0 <= p <= 1.0
    ensures s[0] <= q <= s[|s| - 1]
  {
    var lo := Lower(|s|, p);
    LerpBetween(s[lo], s[Upper(|s|, lo)], Index(|s|, p) - lo as real);
    Lerp(s[lo], s[Upper(|s|, lo)], Index(|s|, p) - lo as real)
  }

  /** A larger fraction never moves the interpolation to an earlier position. */
  lemma LowerMonotone(n: nat, p: real, p': real)
    requires 0 < n && 0.0 <= p <= p' <= 1.0
    ensures Lower(n, p) <= Lower(n, p')
  {
    IndexMonotone(n, p, p');
  }

  /** A larger probability never gives a smaller quantile. */
  lemma {:induction false} QuantileMonotone(s: seq<real>, p: real, p': real)
    requires Sorted(s) && 0 < |s| && 0.0 <= p <= p' <= 1.0
    ensures Quantile(s, p) <= Quantile(s, p')
  {
    var n := |s|;
    var lo, lo' := Lower(n, p), Lower(n, p');
    LowerMonotone(n, p, p');
    var t, t' := Index(n, p) - lo as real, Index(n, p') - lo' as real;
    LerpBetween(s[lo], s[Upper(n, lo)], t);
    LerpBetween(s[lo'], s[Upper(n, lo')], t');
    if lo < lo' {
      assert s[Upper(n, lo)] <= s[lo'];
    } else {
      IndexMonotone(n, p, p');
      LerpMonotone(s[lo], s[Upper(n, lo)], t, t');
    }
  }

  /** The clip interval `[lower, upper]` of one column. */
  datatype Bounds = Bounds(lower: real, upper: real)

  /** `Q1 - 1.5 * IQR` and `Q3 + 1.5 * IQR`, with the quartiles of the sample `xs`. */
  function IqrBounds(xs: seq<real>): (b: Bounds)
    requires 0 < |xs|
    ensures b.lower <= Quantile(Sort(xs), 0.25) <= Quantile(Sort(xs), 0.75) <= b.upper
    ensures b.upper - b.lower == 4.0 * (Quantile(Sort(xs), 0.75) - Quantile(Sort(xs), 0.25))
    ensures Quantile(Sort(xs), 0.25) - b.lower == b.upper - Quantile(Sort(xs), 0.75)
  {
    var s := Sort(xs);
    assert |multiset(s)| == |multiset(xs)|;
    var q1 := Quantile(s, 0.25);
    var q3 := Quantile(s, 0.75);
    QuantileMonotone(s, 0.25, 0.75);
    Bounds(q1 - 1.5 * (q3 - q1), q3 + 1.5 * (q3 - q1))
  }

  /** The fences of a sample depend on its values only, not on their order. */
  lemma IqrBoundsOrderFree(xs: seq<real>, ys: seq<real>)
    requires 0 < |xs| && multiset(xs) == multiset(ys)
    ensures 0 < |ys| && IqrBounds(xs) == IqrBounds(ys)
  {
    assert |ys| == |multiset(ys)| == |multiset(xs)| == |xs|;
    SortedUnique(Sort(xs), Sort(ys));
  }

  /**
   * `Series.clip(lower, upper)` on one value: values above `upper` become `upper`,
   * then values below `lower` become `lower`.
   */
  function Clamp(x: real, b: Bounds): (y: real)
    ensures b.lower <= b.upper ==> b.lower <= y <= b.upper
    ensures b.lower <= x <= b.upper ==> y == x
    ensures y == x || y == b.lower || y == b.upper
  {
    var capped := if x <= b.upper then x else b.upper;
    if x >= b.lower then capped else b.lower
  }

  /** Clipping twice to the same fences is clipping once. */
  lemma {:induction false} ClampIdempotent(x: real, b: Bounds)
    requires b.lower <= b.upper
    ensures Clamp(Clamp(x, b), b) == Clamp(x, b)
  {
    var y := Clamp(x, b);
    assert b.lower <= y <= b.upper;
  }

  /** Clipping keeps the order of values. */
  lemma ClampMonotone(x: real, x': real, b: Bounds)
    requires b.lower <= b.upper && x <= x'
    ensures Clamp(x, b) <= Clamp(x', b)
  {
  }
}
