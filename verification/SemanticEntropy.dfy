/**
  `H_norm` (`pipeline/l3_score/entropy.py`): the spread of a clustering over
  exact reals, for any function with the two facts about the natural logarithm
  that the bounds need.
*/
module SemanticEntropy {

  predicate TurnsProduct(ln: real -> real, x: real, y: real) { x > 0.0 && y > 0.0 ==> ln(x * y) == ln(x) + ln(y) }

  predicate BelowTangent(ln: real -> real, x: real) { x > 0.0 && x != 1.0 ==> ln(x) < x - 1.0 }

  /** It turns products into sums and lies below its tangent at one. */
  ghost predicate NaturalLog(ln: real -> real) {
    && (forall x: real, y: real {:trigger TurnsProduct(ln, x, y)} :: TurnsProduct(ln, x, y))
    && (forall x: real {:trigger BelowTangent(ln, x)} :: BelowTangent(ln, x))
  }

  /* ---- cluster sizes ------------------------------------------------------- */

  function Count(labels: seq<nat>, v: nat): nat {
    if labels == [] then 0 else (if labels[0] == v then 1 else 0) + Count(labels[1..], v)
  }

  function Without(labels: seq<nat>, v: nat): (r: seq<nat>)
    ensures |r| + Count(labels, v) == |labels|
  {
    if labels == [] then []
    else (if labels[0] == v then [] else [labels[0]]) + Without(labels[1..], v)
  }

  /** `Counter(labels).values()`: one size for each label, in order of first appearance. */
  function Sizes(labels: seq<nat>): seq<nat>
    decreases |labels|
  {
    if labels == [] then []
    else [Count(labels, labels[0])] + Sizes(Without(labels, labels[0]))
  }

  function Total(sizes: seq<nat>): nat { if sizes == [] then 0 else sizes[0] + Total(sizes[1..]) }

  predicate Positive(sizes: seq<nat>) { forall i :: 0 <= i < |sizes| ==> sizes[i] >= 1 }

  lemma {:induction false} SizesAddUp(labels: seq<nat>)
    ensures Total(Sizes(labels)) == |labels| && Positive(Sizes(labels))
    ensures labels != [] ==> Sizes(labels) != []
    decreases |labels|
  {
    if labels != [] {
      var rest := Without(labels, labels[0]);
      SizesAddUp(rest);
      assert Sizes(labels)[1..] == Sizes(rest);
    }
  }

  lemma {:induction false} FewerThanTotal(sizes: seq<nat>)
    requires Positive(sizes)
    ensures |sizes| <= Total(sizes)
    ensures |sizes| == Total(sizes) ==> forall i :: 0 <= i < |sizes| ==> sizes[i] == 1
    ensures (forall i :: 0 <= i < |sizes| ==> sizes[i] == 1) ==> |sizes| == Total(sizes)
  {
    if sizes != [] {
      FewerThanTotal(sizes[1..]);
      assert forall i :: 0 < i < |sizes| ==> sizes[i] == sizes[1..][i - 1];
      assert forall i :: 0 <= i < |sizes[1..]| ==> sizes[1..][i] == sizes[i + 1];
    }
  }

  /* ---- the formula ----------------------------------------------------------- */

  function Share(size: nat, k: nat): real
    requires k > 0
  {
    size as real / k as real
  }

  /** The sum of -p log p. */
  function Spread(ln: real -> real, sizes: seq<nat>, k: nat): real
    requires k > 0
  {
    if sizes == [] then 0.0
    else -(Share(sizes[0], k) * ln(Share(sizes[0], k))) + Spread(ln, sizes[1..], k)
  }

  function Clamp(x: real): real {
    var low := if x > 0.0 then x else 0.0;
    if low < 1.0 then low else 1.0
  }

  /** `_normalised_entropy` */
  function NormalisedEntropy(ln: real -> real, labels: seq<nat>): real
    requires labels != []
    requires |labels| > 1 ==> ln(|labels| as real) != 0.0
  {
    if |labels| == 1 then 0.0 else Clamp(Spread(ln, Sizes(labels), |labels|) / ln(|labels| as real))
  }

  /* ---- the logarithm ------------------------------------------------------------ */

  lemma LogOfOne(ln: real -> real)
    requires NaturalLog(ln)
    ensures ln(1.0) == 0.0
  {
    assert TurnsProduct(ln, 1.0, 1.0);
  }

  lemma LogOfInverse(ln: real -> real, x: real, y: real)
    requires NaturalLog(ln) && x > 0.0 && y > 0.0 && x * y == 1.0
    ensures ln(y) == -ln(x)
  {
    LogOfOne(ln);
    assert TurnsProduct(ln, x, y);
  }

  lemma Inverse(k: nat)
    requires k > 0
    ensures Share(1, k) > 0.0 && k as real * Share(1, k) == 1.0
  {
  }

  lemma LogIsPositive(ln: real -> real, k: nat)
    requires NaturalLog(ln) && k > 1
    ensures ln(k as real) > 0.0 && ln(Share(1, k)) == -ln(k as real)
  {
    Inverse(k);
    LogOfInverse(ln, k as real, Share(1, k));
    assert Share(1, k) < 1.0;
    assert BelowTangent(ln, Share(1, k));
  }

  /* ---- bounds on one term --------------------------------------------------------- */

  lemma ShareBounds(size: nat, k: nat)
    requires 1 <= size <= k
    ensures 0.0 < Share(size, k) <= 1.0 && (Share(size, k) == 1.0 <==> size == k)
  {
    var p, d := Share(size, k), k as real;
    assert p * d == size as real;
  }

  lemma NegatedProduct(p: real, l: real)
    requires p > 0.0 && l <= 0.0
    ensures -(p * l) >= 0.0 && (-(p * l) == 0.0 <==> l == 0.0)
  {
  }

  lemma TermIsNonnegative(ln: real -> real, size: nat, k: nat)
    requires NaturalLog(ln) && 1 <= size <= k
    ensures var p := Share(size, k); -(p * ln(p)) >= 0.0 && (-(p * ln(p)) == 0.0 <==> size == k)
  {
    var p := Share(size, k);
    ShareBounds(size, k);
    LogOfOne(ln);
    assert BelowTangent(ln, p);
    NegatedProduct(p, ln(p));
  }

  lemma ProductForm(s: real, d: real)
    requires d > 0.0
    ensures s / d == s * (1.0 / d)
  {
  }

  lemma ShareIsProduct(size: nat, k: nat)
    requires k > 0
    ensures Share(size, k) == size as real * Share(1, k)
  {
    ProductForm(size as real, k as real);
  }

  lemma LogOfProduct(ln: real -> real, x: real, y: real, p: real)
    requires NaturalLog(ln) && x > 0.0 && y > 0.0 && p == x * y
    ensures ln(p) == ln(x) + ln(y)
  {
    assert TurnsProduct(ln, x, y);
  }

  lemma LogOfShare(ln: real -> real, size: nat, k: nat)
    requires NaturalLog(ln) && 1 <= size <= k
    ensures ln(Share(size, k)) == ln(size as real) - ln(k as real)
  {
    Inverse(k);
    ShareIsProduct(size, k);
    LogOfProduct(ln, size as real, Share(1, k), Share(size, k));
    LogOfInverse(ln, k as real, Share(1, k));
  }

  /** A term is at most its tangent: 1/k - p + p log k. */
  lemma TermIsBelowTangent(ln: real -> real, size: nat, k: nat)
    requires NaturalLog(ln) && 1 <= size <= k
    ensures var p := Share(size, k); -(p * ln(p)) <= Share(1, k) - p + p * ln(k as real)
  {
    var p, u := Share(size, k), Share(1, size);
    ShareBounds(size, k);
    LogOfShare(ln, size, k);
    Inverse(size);
    LogOfInverse(ln, size as real, u);
    LogOfOne(ln);
    assert BelowTangent(ln, u);
    ShareTimesInverse(size as real, k as real);
    Tangent(p, ln(p), ln(k as real), u, Share(1, k));
  }

  lemma ShareTimesInverse(s: real, d: real)
    requires s > 0.0 && d > 0.0
    ensures (s / d) * (1.0 / s) == 1.0 / d
  {
    var a, b := s / d, 1.0 / s;
    assert (a * b) * d == (a * d) * b;
    assert a * d == s && s * b == 1.0;
    Divided(a * b, d);
  }

  lemma Divided(x: real, d: real)
    requires d > 0.0 && x * d == 1.0
    ensures x == 1.0 / d
  {
  }

  lemma Scaled(p: real, x: real, y: real)
    requires p > 0.0 && x <= y
    ensures p * x <= p * y
  {
  }

  lemma Tangent(p: real, lp: real, lk: real, u: real, v: real)
    requires p > 0.0 && -lp <= lk + u - 1.0 && p * u == v
    ensures -(p * lp) <= v - p + p * lk
  {
    Scaled(p, -lp, lk + u - 1.0);
    assert p * -lp == -(p * lp);
    assert p * (lk + u - 1.0) == p * lk + p * u - p;
  }

  /* ---- bounds on the sum ------------------------------------------------------------ */

  predicate Fits(sizes: seq<nat>, k: nat) { forall i :: 0 <= i < |sizes| ==> 1 <= sizes[i] <= k }

  lemma FitsTail(sizes: seq<nat>, k: nat)
    requires Fits(sizes, k) && sizes != []
    ensures 1 <= sizes[0] <= k && Fits(sizes[1..], k)
  {
    assert sizes == [sizes[0]] + sizes[1..];
  }

  predicate Full(sizes: seq<nat>, k: nat) { forall i :: 0 <= i < |sizes| ==> sizes[i] == k }

  lemma FullCons(sizes: seq<nat>, k: nat)
    requires sizes != []
    ensures Full(sizes, k) <==> sizes[0] == k && Full(sizes[1..], k)
  {
    assert sizes == [sizes[0]] + sizes[1..];
  }

  lemma SumOfTwo(x: real, y: real)
    requires x >= 0.0 && y >= 0.0
    ensures x + y >= 0.0 && (x + y == 0.0 <==> x == 0.0 && y == 0.0)
  {
  }

  lemma {:induction false} SpreadIsNonnegative(ln: real -> real, sizes: seq<nat>, k: nat)
    requires NaturalLog(ln) && k > 0 && Fits(sizes, k)
    ensures Spread(ln, sizes, k) >= 0.0 && (Spread(ln, sizes, k) == 0.0 <==> Full(sizes, k))
  {
    if sizes != [] {
      FitsTail(sizes, k);
      FullCons(sizes, k);
      TermIsNonnegative(ln, sizes[0], k);
      SpreadIsNonnegative(ln, sizes[1..], k);
      SumOfTwo(-(Share(sizes[0], k) * ln(Share(sizes[0], k))), Spread(ln, sizes[1..], k));
    }
  }

  lemma {:induction false} SpreadIsBounded(ln: real -> real, sizes: seq<nat>, k: nat)
    requires NaturalLog(ln) && k > 0 && Fits(sizes, k)
    ensures Spread(ln, sizes, k)
         <= |sizes| as real * Share(1, k) - Share(Total(sizes), k) + Share(Total(sizes), k) * ln(k as real)
  {
    if sizes != [] {
      FitsTail(sizes, k);
      TermIsBelowTangent(ln, sizes[0], k);
      SpreadIsBounded(ln, sizes[1..], k);
      SharesAdd(sizes[0], Total(sizes[1..]), k);
      Gather(|sizes[1..]| as real, Share(1, k), Share(sizes[0], k), Share(Total(sizes[1..]), k), ln(k as real));
    }
  }

  lemma SharesAdd(a: nat, b: nat, k: nat)
    requires k > 0
    ensures Share(a + b, k) == Share(a, k) + Share(b, k)
  {
  }

  lemma Gather(n: real, v: real, p: real, q: real, l: real)
    ensures (v - p + p * l) + (n * v - q + q * l) == (n + 1.0) * v - (p + q) + (p + q) * l
  {
  }

  lemma {:induction false} AllOnesSpread(ln: real -> real, sizes: seq<nat>, k: nat)
    requires NaturalLog(ln) && k > 1 && forall i :: 0 <= i < |sizes| ==> sizes[i] == 1
    ensures Spread(ln, sizes, k) == |sizes| as real * (Share(1, k) * ln(k as real))
  {
    if sizes != [] {
      LogIsPositive(ln, k);
      AllOnesSpread(ln, sizes[1..], k);
      OneMore(|sizes[1..]| as real, Share(1, k), ln(k as real));
    }
  }

  lemma OneMore(n: real, v: real, l: real)
    ensures -(v * -l) + n * (v * l) == (n + 1.0) * (v * l)
  {
  }

  /* ---- the theorems -------------------------------------------------------------------- */

  lemma SizesFit(sizes: seq<nat>, k: nat)
    requires Positive(sizes) && Total(sizes) <= k
    ensures Fits(sizes, k)
  {
    if sizes != [] {
      assert sizes == [sizes[0]] + sizes[1..];
      SizesFit(sizes[1..], k);
      assert forall i :: 0 < i < |sizes| ==> sizes[i] == sizes[1..][i - 1];
    }
  }

  lemma UpperBound(spread: real, filled: real, whole: real, l: real)
    requires spread <= filled - whole + whole * l && whole == 1.0 && filled <= 1.0
    ensures spread <= l && (spread == l ==> filled == 1.0)
  {
  }

  lemma SpreadOfSingles(ln: real -> real, sizes: seq<nat>, k: nat)
    requires NaturalLog(ln) && k > 1 && |sizes| == k && forall i :: 0 <= i < |sizes| ==> sizes[i] == 1
    ensures Spread(ln, sizes, k) == ln(k as real)
  {
    AllOnesSpread(ln, sizes, k);
    Inverse(k);
    Whole(k as real, Share(1, k), ln(k as real));
  }

  lemma Whole(n: real, v: real, l: real)
    requires n * v == 1.0
    ensures n * (v * l) == l
  {
    assert n * (v * l) == (n * v) * l;
  }

  lemma SpreadAtMostLog(ln: real -> real, sizes: seq<nat>, k: nat)
    requires NaturalLog(ln) && k > 1 && Positive(sizes) && Total(sizes) == k
    ensures Spread(ln, sizes, k) <= ln(k as real)
    ensures Spread(ln, sizes, k) == ln(k as real) <==> |sizes| == k
  {
    SizesFit(sizes, k);
    FewerThanTotal(sizes);
    SpreadIsBounded(ln, sizes, k);
    AtMostOne(|sizes|, k);
    UpperBound(Spread(ln, sizes, k), |sizes| as real * Share(1, k), Share(k, k), ln(k as real));
    if |sizes| == k { SpreadOfSingles(ln, sizes, k); }
  }

  /** The spread of k draws lies between nothing, for one cluster, and log k, for k of them. */
  lemma SpreadRange(ln: real -> real, labels: seq<nat>)
    requires NaturalLog(ln) && |labels| > 1
    ensures var k := |labels|;
            && 0.0 <= Spread(ln, Sizes(labels), k) <= ln(k as real) && ln(k as real) > 0.0
            && (Spread(ln, Sizes(labels), k) == 0.0 <==> |Sizes(labels)| == 1)
            && (Spread(ln, Sizes(labels), k) == ln(k as real) <==> |Sizes(labels)| == k)
  {
    var k, sizes := |labels|, Sizes(labels);
    SizesAddUp(labels);
    SizesFit(sizes, k);
    LogIsPositive(ln, k);
    SpreadIsNonnegative(ln, sizes, k);
    SoleSize(sizes, k);
    SpreadAtMostLog(ln, sizes, k);
  }

  lemma AtMostOne(m: nat, k: nat)
    requires m <= k && k > 0
    ensures m as real * Share(1, k) <= 1.0 && (m as real * Share(1, k) == 1.0 <==> m == k) && Share(k, k) == 1.0
  {
    Inverse(k);
    var v := Share(1, k);
    assert (k - m) as real * v == k as real * v - m as real * v;
    if m < k { assert (k - m) as real * v > 0.0; }
  }

  lemma SoleSize(sizes: seq<nat>, k: nat)
    requires sizes != [] && Positive(sizes) && Total(sizes) == k
    ensures Full(sizes, k) <==> |sizes| == 1
  {
    FewerThanTotalTail(sizes);
  }

  lemma FewerThanTotalTail(sizes: seq<nat>)
    requires sizes != [] && Positive(sizes)
    ensures |sizes| > 1 ==> sizes[0] < Total(sizes)
    ensures |sizes| == 1 ==> sizes[0] == Total(sizes)
  {
    assert sizes == [sizes[0]] + sizes[1..];
    FewerThanTotal(sizes[1..]);
  }

  predicate AllSame(labels: seq<nat>) { forall i :: 0 <= i < |labels| ==> labels[i] == labels[0] }

  predicate AllDifferent(labels: seq<nat>) { forall i, j :: 0 <= i < j < |labels| ==> labels[i] != labels[j] }

  lemma {:induction false} CountIsAll(labels: seq<nat>, v: nat)
    ensures Count(labels, v) <= |labels|
    ensures Count(labels, v) == |labels| <==> forall i :: 0 <= i < |labels| ==> labels[i] == v
    ensures Count(labels, v) == 0 <==> v !in labels
  {
    if labels != [] {
      CountIsAll(labels[1..], v);
      assert forall i :: 0 < i < |labels| ==> labels[i] == labels[1..][i - 1];
      assert forall i :: 0 <= i < |labels[1..]| ==> labels[1..][i] == labels[i + 1];
    }
  }

  lemma OneSizeIffAllSame(labels: seq<nat>)
    requires labels != []
    ensures |Sizes(labels)| == 1 <==> AllSame(labels)
  {
    CountIsAll(labels, labels[0]);
    SizesAddUp(Without(labels, labels[0]));
  }

  lemma {:induction false} FirstCountsOnce(labels: seq<nat>)
    requires labels != []
    ensures Count(labels, labels[0]) == 1 <==> labels[0] !in labels[1..]
    ensures Count(labels, labels[0]) == 1 ==> Without(labels, labels[0]) == labels[1..]
  {
    CountIsAll(labels[1..], labels[0]);
    if labels[0] !in labels[1..] { WithoutAbsent(labels[1..], labels[0]); }
  }

  lemma {:induction false} WithoutAbsent(labels: seq<nat>, v: nat)
    requires v !in labels
    ensures Without(labels, v) == labels
  {
    if labels != [] {
      WithoutAbsent(labels[1..], v);
      assert [labels[0]] + labels[1..] == labels;
    }
  }

  lemma DifferentCons(labels: seq<nat>)
    requires labels != []
    ensures AllDifferent(labels) <==> labels[0] !in labels[1..] && AllDifferent(labels[1..])
  {
    assert labels == [labels[0]] + labels[1..];
  }

  lemma {:induction false} AsManySizesIffAllDifferent(labels: seq<nat>)
    ensures |Sizes(labels)| == |labels| <==> AllDifferent(labels)
    decreases |labels|
  {
    if labels != [] {
      var rest := Without(labels, labels[0]);
      SizesAddUp(rest);
      FewerThanTotal(Sizes(rest));
      FirstCountsOnce(labels);
      CountIsAll(labels, labels[0]);
      DifferentCons(labels);
      if labels[0] !in labels[1..] { AsManySizesIffAllDifferent(labels[1..]); }
    }
  }

  lemma Ratio(spread: real, l: real)
    requires 0.0 <= spread <= l && l > 0.0
    ensures 0.0 <= spread / l <= 1.0 && (spread / l == 0.0 <==> spread == 0.0) && (spread / l == 1.0 <==> spread == l)
  {
  }

  lemma ClampInside(x: real)
    requires 0.0 <= x <= 1.0
    ensures Clamp(x) == x
  {
  }

  /** Over exact arithmetic the clamp never moves anything: what it corrects is rounding. */
  lemma ClampIsInert(ln: real -> real, labels: seq<nat>)
    requires NaturalLog(ln) && |labels| > 1
    ensures ln(|labels| as real) > 0.0
    ensures NormalisedEntropy(ln, labels) == Spread(ln, Sizes(labels), |labels|) / ln(|labels| as real)
  {
    SpreadRange(ln, labels);
    Ratio(Spread(ln, Sizes(labels), |labels|), ln(|labels| as real));
    ClampInside(Spread(ln, Sizes(labels), |labels|) / ln(|labels| as real));
  }

  /** Nothing is uncertain exactly when every draw means the same, and everything exactly when no two do. */
  lemma EntropyExtremes(ln: real -> real, labels: seq<nat>)
    requires NaturalLog(ln) && labels != []
    ensures |labels| > 1 ==> ln(|labels| as real) != 0.0
    ensures 0.0 <= NormalisedEntropy(ln, labels) <= 1.0
    ensures NormalisedEntropy(ln, labels) == 0.0 <==> AllSame(labels)
    ensures NormalisedEntropy(ln, labels) == 1.0 <==> |labels| > 1 && AllDifferent(labels)
  {
    if |labels| > 1 {
      SpreadRange(ln, labels);
      ClampIsInert(ln, labels);
      Ratio(Spread(ln, Sizes(labels), |labels|), ln(|labels| as real));
      OneSizeIffAllSame(labels);
      AsManySizesIffAllDifferent(labels);
    }
  }
}
