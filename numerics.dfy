/** Numeric vocabulary shared by the release layer: optional and fallible
    values, extended reals for epsilon and noise scales, NaN-carrying scores,
    sums, means and maxima over sequences of reals, and the library numerics
    (square root, natural logarithm, Kendall's tau) the mechanisms call. */
module Numerics {

  datatype Option<T> = None | Some(value: T)

  /** A value or the message of a failed Python `assert`. */
  datatype Result<T> = Ok(value: T) | Err(msg: string)

  /** A real number or positive infinity (Python's `float("inf")`). */
  datatype ExtReal = Fin(r: real) | Inf

  /** Strict order on extended reals: every finite value lies below Inf. */
  predicate Below(a: ExtReal, b: ExtReal) {
    match a
    case Inf => false
    case Fin(x) => b.Inf? || x < b.r
  }

  /** A reported score: a number, or the `float("nan")` sentinel. */
  datatype Score = Val(v: real) | NaN

  /** The library numerics the mechanisms call (`np.sqrt`, `np.log`,
      `scipy.stats.kendalltau`, `scipy.special.kl_div`), kept abstract as
      function values. */
  datatype Library = Library(
    sqrt: real -> real,
    ln: real -> real,
    kendallTau: (seq<real>, seq<real>) -> Score,
    klDiv: (real, real) -> real)

  /** The facts about `sqrt` and `ln` the model relies on: `sqrt` is the
      non-negative square root (with `sqrt(0) = 0` stated outright),
      `ln(1) = 0`, and `ln` is positive above 1. */
  ghost predicate Sound(lib: Library) {
    && (forall x :: x >= 0.0 ==> lib.sqrt(x) >= 0.0 && Square(lib.sqrt(x)) == x)
    && lib.sqrt(0.0) == 0.0
    && lib.ln(1.0) == 0.0
    && (forall x :: x > 1.0 ==> lib.ln(x) > 0.0)
  }

  /** The facts about the elementwise KL term the KL lemmas rely on: it is
      zero on equal positive arguments and never negative on positive
      ones. */
  ghost predicate KlSound(lib: Library) {
    && (forall x :: x > 0.0 ==> lib.klDiv(x, x) == 0.0)
    && (forall x, y :: x > 0.0 && y > 0.0 ==> lib.klDiv(x, y) >= 0.0)
  }

  lemma SqrtPositive(lib: Library, x: real)
    requires Sound(lib) && x > 0.0
    ensures lib.sqrt(x) > 0.0
  {
    assert Square(lib.sqrt(x)) == x;
  }

  /** The square of a real, kept behind a name so that the solver's
      arithmetic does not unfold every product. */
  function Square(x: real): real {
    x * x
  }

  lemma SquareNonNegative(x: real)
    ensures Square(x) >= 0.0
  {
    if x != 0.0 {
      SquarePositive(x);
    }
  }

  lemma SquarePositive(x: real)
    requires x != 0.0
    ensures Square(x) > 0.0
  {
    if x > 0.0 {
      ProductPositive(x, x, Square(x));
    } else {
      ProductPositive(-x, -x, Square(x));
    }
  }

  lemma ProductPositive(a: real, b: real, q: real)
    requires a > 0.0 && b > 0.0 && q == a * b
    ensures q > 0.0
  {
  }


  /** Left-to-right sum, as `sum(...)`, `Series.sum()` and `np.sum` compute
      it over the reals. */
  function Sum(s: seq<real>): real {
    if |s| == 0 then 0.0 else Sum(s[..|s| - 1]) + s[|s| - 1]
  }

  /** `np.mean` of a non-empty sequence. */
  function Mean(s: seq<real>): real
    requires |s| > 0
  {
    Sum(s) / |s| as real
  }

  /** The largest element, as `np.max`, of a non-empty sequence. */
  function Max(s: seq<real>): (m: real)
    requires |s| > 0
    ensures forall i :: 0 <= i < |s| ==> s[i] <= m
    ensures exists i :: 0 <= i < |s| && s[i] == m
  {
    if |s| == 1 then s[0]
    else
      var rest := Max(s[..|s| - 1]);
      assert forall i :: 0 <= i < |s| - 1 ==> s[..|s| - 1][i] == s[i];
      if s[|s| - 1] > rest then s[|s| - 1] else rest
  }

  /** Each value rescaled as `x / total * 100.0`. */
  function Percentages(s: seq<real>, total: real): seq<real>
    requires total != 0.0
  {
    seq(|s|, i requires 0 <= i < |s| => s[i] / total * 100.0)
  }

  /** Each value divided by `d`, as `series / d`. */
  function Scaled(s: seq<real>, d: real): (r: seq<real>)
    requires d != 0.0
    ensures |r| == |s|
  {
    seq(|s|, i requires 0 <= i < |s| => s[i] / d)
  }

  /** Dividing every value by `d` divides the sum by `d`. */
  lemma {:induction false} SumScaled(s: seq<real>, d: real)
    requires d != 0.0
    ensures Sum(Scaled(s, d)) == Sum(s) / d
  {
    if |s| > 0 {
      var n := |s|;
      assert Scaled(s, d)[..n - 1] == Scaled(s[..n - 1], d);
      SumScaled(s[..n - 1], d);
      assert Sum(s[..n - 1]) / d + s[n - 1] / d == (Sum(s[..n - 1]) + s[n - 1]) / d;
    }
  }

  /** A sum of non-negative terms is at least each of its terms. */
  lemma {:induction false} SumAtLeastElement(s: seq<real>, k: nat)
    requires NonNegative(s) && k < |s|
    ensures Sum(s) >= s[k]
  {
    var n := |s|;
    var init := s[..n - 1];
    assert NonNegative(init) by {
      forall i | 0 <= i < n - 1 ensures init[i] >= 0.0 {
        assert init[i] == s[i];
      }
    }
    if k == n - 1 {
      SumNonNegative(s[..n - 1]);
    } else {
      assert s[..n - 1][k] == s[k];
      SumAtLeastElement(s[..n - 1], k);
    }
  }

  /** The entries at positions `i` and `j` differ. */
  predicate DistinctAt<T(==)>(s: seq<T>, i: nat, j: nat)
    requires i < |s| && j < |s|
  {
    s[i] != s[j]
  }

  /** No element occurs twice. The pair quantifier is stated through
      `DistinctAt`, so that it is instantiated only for the pairs a proof
      names. */
  predicate Distinct<T(==)>(s: seq<T>) {
    forall i, j :: 0 <= i < j < |s| ==> DistinctAt(s, i, j)
  }

  /** In a duplicate-free sequence no later entry repeats entry `k`. */
  lemma DistinctLater<T>(s: seq<T>, k: nat)
    requires Distinct(s) && k < |s|
    ensures forall m :: k < m < |s| ==> s[m] != s[k]
  {
    forall m | k < m < |s| ensures s[m] != s[k] {
      assert DistinctAt(s, k, m);
    }
  }

  /** A sequence has at most as many distinct elements as entries, and
      exactly as many when no element occurs twice. */
  lemma {:induction false} ElementCount<T>(s: seq<T>)
    ensures |set x | x in s| <= |s|
    ensures Distinct(s) ==> |set x | x in s| == |s|
  {
    if |s| > 0 {
      var init := s[..|s| - 1];
      var last := s[|s| - 1];
      ElementCount(init);
      assert (set x | x in s) == (set x | x in init) + {last} by {
        assert s == init + [last];
      }
      if Distinct(s) {
        assert Distinct(init) by {
          forall i, j | 0 <= i < j < |init| ensures DistinctAt(init, i, j) {
            assert DistinctAt(s, i, j);
          }
        }
        assert last !in init by {
          forall i | 0 <= i < |init| ensures init[i] != last {
            assert DistinctAt(s, i, |s| - 1);
          }
        }
      }
    }
  }

  /** A duplicate-free sequence whose entries all occur in another sequence
      of the same length lists every element of that other sequence. */
  lemma SameLengthCovers<T>(a: seq<T>, b: seq<T>)
    requires Distinct(a) && |a| == |b|
    requires forall i :: 0 <= i < |a| ==> a[i] in b
    ensures forall c :: c in b ==> c in a
  {
    var sa := set x | x in a;
    var sb := set x | x in b;
    ElementCount(a);
    ElementCount(b);
    assert sa <= sb;
    assert sb == sa + (sb - sa);
    assert |sb| == |sa| + |sb - sa|;
    assert sb - sa == {};
    forall c | c in b ensures c in a {
      assert c in sb;
    }
  }

  predicate NonNegative(s: seq<real>) {
    forall i :: 0 <= i < |s| ==> s[i] >= 0.0
  }

  lemma {:induction false} SumNonNegative(s: seq<real>)
    requires NonNegative(s)
    ensures Sum(s) >= 0.0
  {
    if |s| > 0 {
      SumNonNegative(s[..|s| - 1]);
    }
  }

  /** A sum of non-negative terms bounds each of its prefix sums. */
  lemma {:induction false} PrefixSumAtMost(s: seq<real>, k: nat)
    requires NonNegative(s) && k <= |s|
    ensures Sum(s[..k]) <= Sum(s)
  {
    if k < |s| {
      assert s[..|s| - 1][..k] == s[..k];
      PrefixSumAtMost(s[..|s| - 1], k);
    } else {
      assert s[..k] == s;
    }
  }

  /** The sum of a sequence whose elements all equal `c`. */
  lemma {:induction false} SumConstant(s: seq<real>, c: real)
    requires forall i :: 0 <= i < |s| ==> s[i] == c
    ensures Sum(s) == |s| as real * c
  {
    if |s| > 0 {
      SumConstant(s[..|s| - 1], c);
    }
  }

  /** Sums the same when the two sequences agree elementwise. */
  lemma {:induction false} SumExtensional(s: seq<real>, t: seq<real>)
    requires |s| == |t| && forall i :: 0 <= i < |s| ==> s[i] == t[i]
    ensures Sum(s) == Sum(t)
  {
    assert s == t;
  }

  /** Rescaling every value by `/ total * 100` rescales the sum the same way. */
  lemma {:induction false} SumPercentages(s: seq<real>, total: real)
    requires total != 0.0
    ensures Sum(Percentages(s, total)) == Sum(s) / total * 100.0
  {
    if |s| > 0 {
      var n := |s|;
      assert Percentages(s, total)[..n - 1] == Percentages(s[..n - 1], total);
      SumPercentages(s[..n - 1], total);
      calc {
        Sum(Percentages(s, total));
        Sum(s[..n - 1]) / total * 100.0 + s[n - 1] / total * 100.0;
        (Sum(s[..n - 1]) + s[n - 1]) / total * 100.0;
      }
    }
  }

  /** A non-empty sequence sums to at most its length times its maximum. */
  lemma {:induction false} SumAtMostLengthTimesMax(s: seq<real>, m: real)
    requires forall i :: 0 <= i < |s| ==> s[i] <= m
    ensures Sum(s) <= |s| as real * m
  {
    if |s| > 0 {
      SumAtMostLengthTimesMax(s[..|s| - 1], m);
    }
  }

  /** The mean never exceeds the maximum. */
  lemma MeanAtMostMax(s: seq<real>)
    requires |s| > 0
    ensures Mean(s) <= Max(s)
  {
    var n, m := |s| as real, Max(s);
    SumAtMostLengthTimesMax(s, m);
    DivideAtMost(Sum(s), n * m, n);
    CancelFactor(m, n);
  }

  lemma CancelFactor(m: real, n: real)
    requires n > 0.0
    ensures n * m / n == m
  {
  }

  lemma DivideAtMost(a: real, b: real, n: real)
    requires a <= b && n > 0.0
    ensures a / n <= b / n
  {
    assert b / n - a / n == (b - a) / n;
  }

  /** Extending a prefix by the next element gives the next prefix. */
  lemma TakeOneMore<T>(s: seq<T>, i: nat)
    requires i < |s|
    ensures s[..i] + [s[i]] == s[..i + 1]
  {
  }
}
