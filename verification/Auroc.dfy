/**
  Tie-corrected rank AUROC (`eval/discrimination.py`).

  The source sorts, overwrites an array of ranks group by group, sums the kept
  ranks and subtracts the sum of a class that loses every pair.  The reference
  is the sentence in its documentation: the chance that a kept candidate
  outranks a rejected one, ties counting half.  Scores are exact reals.
*/
module Auroc {
  import opened Prelude

  datatype Error = LengthMismatch | NoCandidates | OneSided

  /* ------------------------------------------------------------------ */
  /* The pairwise reference                                               */
  /* ------------------------------------------------------------------ */

  /** Twice what `a` earns against `b`: two for a win, one for a tie. */
  function Credit(a: real, b: real): nat {
    if a > b then 2 else if a == b then 1 else 0
  }

  function RowCredit(a: real, bs: seq<real>): nat {
    if bs == [] then 0 else Credit(a, bs[0]) + RowCredit(a, bs[1..])
  }

  function PairCredit(xs: seq<real>, bs: seq<real>): nat {
    if xs == [] then 0 else RowCredit(xs[0], bs) + PairCredit(xs[1..], bs)
  }

  /** The scores whose label is `wanted`, in corpus order. */
  function Select(labels: seq<bool>, scores: seq<real>, wanted: bool): seq<real>
    requires |labels| == |scores|
  {
    if labels == [] then []
    else (if labels[0] == wanted then [scores[0]] else []) + Select(labels[1..], scores[1..], wanted)
  }

  /** (pairs where kept > rejected + half the tied pairs) / (kept * rejected). */
  function PairwiseAuroc(kept: seq<real>, rejected: seq<real>): real
    requires kept != [] && rejected != []
  {
    PairCredit(kept, rejected) as real / (2 * (|kept| * |rejected|)) as real
  }

  /* ------------------------------------------------------------------ */
  /* Average ranks                                                        */
  /* ------------------------------------------------------------------ */

  function AverageRank(v: real, scores: seq<real>): real {
    (1 + RowCredit(v, scores)) as real / 2.0
  }

  function Below(v: real, scores: seq<real>): set<int> {
    set i | 0 <= i < |scores| && scores[i] < v
  }

  function Tied(v: real, scores: seq<real>): set<int> {
    set i | 0 <= i < |scores| && scores[i] == v
  }

  /** The textbook reading of an average rank: 1 + #smaller + (#equal - 1) / 2. */
  lemma {:induction false} AverageRankMeaning(v: real, scores: seq<real>)
    ensures AverageRank(v, scores)
         == 1.0 + |Below(v, scores)| as real + (|Tied(v, scores)| - 1) as real / 2.0
  {
    RowCreditCounts(v, scores);
  }

  lemma BelowSnoc(v: real, init: seq<real>, last: real)
    ensures Below(v, init + [last]) == if last < v then Below(v, init) + {|init|} else Below(v, init)
  {
  }

  lemma TiedSnoc(v: real, init: seq<real>, last: real)
    ensures Tied(v, init + [last]) == if last == v then Tied(v, init) + {|init|} else Tied(v, init)
  {
  }

  lemma {:induction false} RowCreditCounts(v: real, scores: seq<real>)
    ensures RowCredit(v, scores) == 2 * |Below(v, scores)| + |Tied(v, scores)|
  {
    if scores != [] {
      var n := |scores| - 1;
      var init, last := scores[..n], scores[n];
      RowCreditCounts(v, init);
      RowCreditAppend(v, init, [last]);
      BelowSnoc(v, init, last);
      TiedSnoc(v, init, last);
      assert scores == init + [last];
      assert RowCredit(v, [last]) == Credit(v, last);
    }
  }

  lemma {:induction false} RowCreditAppend(v: real, xs: seq<real>, ys: seq<real>)
    ensures RowCredit(v, xs + ys) == RowCredit(v, xs) + RowCredit(v, ys)
  {
    if xs == [] {
      assert xs + ys == ys;
    } else {
      assert (xs + ys)[1..] == xs[1..] + ys;
      RowCreditAppend(v, xs[1..], ys);
    }
  }

  /** Where the head of one list sits in a permutation of it. */
  lemma {:induction false} HeadElsewhere<T>(xs: seq<T>, ys: seq<T>) returns (k: nat)
    requires xs != [] && multiset(xs) == multiset(ys)
    ensures k < |ys| && ys[k] == xs[0]
    ensures multiset(xs[1..]) == multiset(ys[..k] + ys[k + 1..])
  {
    assert xs[0] in multiset(ys);
    k :| 0 <= k < |ys| && ys[k] == xs[0];
    MultisetAround(ys, k);
    MultisetAround(xs, 0);
    assert xs[..0] + xs[1..] == xs[1..];
    Cancel(multiset(xs[1..]), multiset(ys[..k] + ys[k + 1..]), multiset{xs[0]});
  }

  lemma Cancel<T>(a: multiset<T>, b: multiset<T>, c: multiset<T>)
    requires a + c == b + c
    ensures a == b
  {
    assert a == (a + c) - c;
    assert b == (b + c) - c;
  }

  lemma MultisetAround<T>(xs: seq<T>, k: nat)
    requires k < |xs|
    ensures multiset(xs) == multiset(xs[..k] + xs[k + 1..]) + multiset{xs[k]}
  {
    assert xs == xs[..k] + [xs[k]] + xs[k + 1..];
  }

  /** Row credit depends on the multiset alone, so no ordering of the corpus can move it. */
  lemma {:induction false} RowCreditPermutation(v: real, xs: seq<real>, ys: seq<real>)
    requires multiset(xs) == multiset(ys)
    ensures RowCredit(v, xs) == RowCredit(v, ys)
  {
    if xs == [] {
      assert |ys| == |multiset(ys)| == 0;
    } else {
      var k := HeadElsewhere(xs, ys);
      var rest := ys[..k] + ys[k + 1..];
      RowCreditPermutation(v, xs[1..], rest);
      RowCreditAppend(v, ys[..k], [ys[k]] + ys[k + 1..]);
      RowCreditAppend(v, [ys[k]], ys[k + 1..]);
      RowCreditAppend(v, ys[..k], ys[k + 1..]);
      assert ys == ys[..k] + ([ys[k]] + ys[k + 1..]);
    }
  }

  predicate IsSortingOrder(order: seq<int>, scores: seq<real>) {
    && |order| == |scores|
    && (forall p :: 0 <= p < |order| ==> 0 <= order[p] < |scores|)
    && (forall p, q :: 0 <= p < q < |order| ==> order[p] != order[q])
    && (forall p, q :: 0 <= p < q < |order| ==> scores[order[p]] <= scores[order[q]])
  }

  function Gather(scores: seq<real>, order: seq<int>): (r: seq<real>)
    requires forall p :: 0 <= p < |order| ==> 0 <= order[p] < |scores|
    ensures |r| == |order| && forall p :: 0 <= p < |order| ==> r[p] == scores[order[p]]
  {
    seq(|order|, p requires 0 <= p < |order| => scores[order[p]])
  }

  function Without(order: seq<int>, k: int): (rest: seq<int>)
    requires 0 <= k < |order|
    requires order[k] == |order| - 1
    requires forall p :: 0 <= p < |order| ==> 0 <= order[p] < |order|
    requires forall p, q :: 0 <= p < q < |order| ==> order[p] != order[q]
    ensures |rest| == |order| - 1
    ensures forall p :: 0 <= p < |rest| ==> rest[p] == order[if p < k then p else p + 1] && 0 <= rest[p] < |rest|
    ensures forall p, q :: 0 <= p < q < |rest| ==> rest[p] != rest[q]
  {
    var rest := order[..k] + order[k + 1..];
    assert forall p :: 0 <= p < |rest| ==> rest[p] == order[if p < k then p else p + 1];
    rest
  }

  /** A list of distinct in-range indices of full length gathers a permutation. */
  lemma {:induction false} GatherPermutes(scores: seq<real>, order: seq<int>)
    requires |order| == |scores|
    requires forall p :: 0 <= p < |order| ==> 0 <= order[p] < |scores|
    requires forall p, q :: 0 <= p < q < |order| ==> order[p] != order[q]
    ensures multiset(Gather(scores, order)) == multiset(scores)
  {
    var n := |scores|;
    if n > 0 {
      HitsTop(order);
      var k :| 0 <= k < n && order[k] == n - 1;
      GatherPermutes(scores[..n - 1], Without(order, k));
      GatherPeels(scores, order, k);
    }
  }

  lemma GatherPeels(scores: seq<real>, order: seq<int>, k: int)
    requires |order| == |scores| && 0 <= k < |order| && order[k] == |order| - 1
    requires forall p :: 0 <= p < |order| ==> 0 <= order[p] < |scores|
    requires forall p, q :: 0 <= p < q < |order| ==> order[p] != order[q]
    requires multiset(Gather(scores[..|scores| - 1], Without(order, k))) == multiset(scores[..|scores| - 1])
    ensures multiset(Gather(scores, order)) == multiset(scores)
  {
    var g, rest := Gather(scores, order), Without(order, k);
    WithoutGathers(scores, order, k);
    MultisetAround(g, k);
    assert scores == scores[..|scores| - 1] + [scores[|scores| - 1]];
  }

  lemma WithoutGathers(scores: seq<real>, order: seq<int>, k: int)
    requires |order| == |scores| && 0 <= k < |order| && order[k] == |order| - 1
    requires forall p :: 0 <= p < |order| ==> 0 <= order[p] < |scores|
    requires forall p, q :: 0 <= p < q < |order| ==> order[p] != order[q]
    ensures Gather(scores[..|scores| - 1], Without(order, k))
         == Gather(scores, order)[..k] + Gather(scores, order)[k + 1..]
  {
  }

  lemma {:induction false} CoversEveryIndex(order: seq<int>, j: int)
    requires 0 <= j < |order|
    requires forall p :: 0 <= p < |order| ==> 0 <= order[p] < |order|
    requires forall p, q :: 0 <= p < q < |order| ==> order[p] != order[q]
    ensures exists p :: 0 <= p < |order| && order[p] == j
  {
    var n := |order|;
    HitsTop(order);
    var k :| 0 <= k < n && order[k] == n - 1;
    if j < n - 1 {
      var rest := Without(order, k);
      CoversEveryIndex(rest, j);
      var p :| 0 <= p < n - 1 && rest[p] == j;
      assert order[if p < k then p else p + 1] == j;
    }
  }

  /** Distinct indices below n, n of them: the greatest one is among them (pigeonhole). */
  lemma {:induction false} HitsTop(order: seq<int>)
    requires |order| > 0
    requires forall p :: 0 <= p < |order| ==> 0 <= order[p] < |order|
    requires forall p, q :: 0 <= p < q < |order| ==> order[p] != order[q]
    ensures exists k :: 0 <= k < |order| && order[k] == |order| - 1
  {
    if forall k :: 0 <= k < |order| ==> order[k] != |order| - 1 {
      DistinctFit(order, |order| - 1);
    }
  }

  lemma {:induction false} DistinctFit(xs: seq<int>, bound: nat)
    requires forall p :: 0 <= p < |xs| ==> 0 <= xs[p] < bound
    requires forall p, q :: 0 <= p < q < |xs| ==> xs[p] != xs[q]
    ensures |xs| <= bound
  {
    if xs != [] {
      assert 0 <= xs[0] < bound;
      var top := bound - 1;
      if k :| 0 <= k < |xs| && xs[k] == top {
        DistinctFit(xs[..k] + xs[k + 1..], top);
      } else {
        DistinctFit(xs, top);
      }
    }
  }

  /** Lower score first; of equal scores, the earlier candidate. */
  predicate Precedes(scores: seq<real>, a: int, b: int)
    requires 0 <= a < |scores| && 0 <= b < |scores|
  {
    scores[a] < scores[b] || (scores[a] == scores[b] && a < b)
  }

  /** numpy's stable argsort, by insertion; any sorting order serves the rest of the module. */
  method ArgSort(scores: seq<real>) returns (order: seq<int>)
    ensures IsSortingOrder(order, scores)
    ensures forall p, q :: 0 <= p < q < |order| ==> Precedes(scores, order[p], order[q])
  {
    order := [];
    for i := 0 to |scores|
      invariant SortsPrefix(order, scores, i)
    {
      var k := i;
      while k > 0 && scores[order[k - 1]] > scores[i]
        invariant 0 <= k <= i
        invariant k < i ==> scores[order[k]] > scores[i]
      {
        k := k - 1;
      }
      InsertKeepsOrder(order, scores, i, k);
      order := order[..k] + [i] + order[k..];
    }
  }

  predicate SortsPrefix(order: seq<int>, scores: seq<real>, n: int) {
    && 0 <= n <= |scores| && |order| == n
    && (forall p :: 0 <= p < n ==> 0 <= order[p] < n)
    && (forall p, q :: 0 <= p < q < n ==> Precedes(scores, order[p], order[q]))
  }

  lemma InsertedFits(order: seq<int>, scores: seq<real>, i: int, k: int, p: int)
    requires SortsPrefix(order, scores, i) && 0 <= k <= i < |scores| && 0 <= p < i
    requires k > 0 ==> scores[order[k - 1]] <= scores[i]
    requires k < i ==> scores[order[k]] > scores[i]
    ensures if p < k then Precedes(scores, order[p], i) else Precedes(scores, i, order[p])
  {
    assert p < k - 1 ==> Precedes(scores, order[p], order[k - 1]);
    assert p > k ==> Precedes(scores, order[k], order[p]);
  }

  lemma InsertedAt(order: seq<int>, i: int, k: int, p: int)
    requires 0 <= k <= |order| && 0 <= p <= |order|
    ensures (order[..k] + [i] + order[k..])[p] == if p < k then order[p] else if p == k then i else order[p - 1]
  {
  }

  lemma InsertKeepsOrder(order: seq<int>, scores: seq<real>, i: int, k: int)
    requires SortsPrefix(order, scores, i) && 0 <= k <= i < |scores|
    requires k > 0 ==> scores[order[k - 1]] <= scores[i]
    requires k < i ==> scores[order[k]] > scores[i]
    ensures SortsPrefix(order[..k] + [i] + order[k..], scores, i + 1)
  {
    var wider := order[..k] + [i] + order[k..];
    forall p | 0 <= p < i + 1 ensures 0 <= wider[p] < i + 1 { InsertedAt(order, i, k, p); }
    forall p, q | 0 <= p < q < i + 1 ensures Precedes(scores, wider[p], wider[q]) {
      InsertedAt(order, i, k, p);
      InsertedAt(order, i, k, q);
      if p == k { InsertedFits(order, scores, i, k, q - 1); }
      if q == k { InsertedFits(order, scores, i, k, p); }
    }
  }

  /** A whole run of one value has start smaller scores and end - start equal ones. */
  lemma {:induction false} GroupRank(scores: seq<real>, order: seq<int>, start: nat, end: nat)
    requires IsSortingOrder(order, scores)
    requires start < end <= |order|
    requires forall p :: start <= p < end ==> scores[order[p]] == scores[order[start]]
    requires start == 0 || scores[order[start - 1]] < scores[order[start]]
    requires end == |order| || scores[order[start]] < scores[order[end]]
    ensures forall p :: start <= p < end ==>
              AverageRank(scores[order[p]], scores) == (1 + start + end) as real / 2.0
  {
    GatherPermutes(scores, order);
    RowCreditPermutation(scores[order[start]], Gather(scores, order), scores);
    GroupCredit(Gather(scores, order), start, end);
  }

  lemma {:induction false} GroupCredit(ordered: seq<real>, start: nat, end: nat)
    requires start < end <= |ordered|
    requires forall p, q :: 0 <= p < q < |ordered| ==> ordered[p] <= ordered[q]
    requires forall p :: start <= p < end ==> ordered[p] == ordered[start]
    requires start == 0 || ordered[start - 1] < ordered[start]
    requires end == |ordered| || ordered[start] < ordered[end]
    ensures RowCredit(ordered[start], ordered) == start + end
  {
    var v := ordered[start];
    RowCreditCounts(v, ordered);
    assert forall i :: 0 <= i < start ==> ordered[i] <= ordered[start - 1] || i == start - 1;
    assert forall i :: end < i < |ordered| ==> ordered[end] <= ordered[i];
    GroupSets(ordered, start, end);
  }

  lemma GroupSets(ordered: seq<real>, start: nat, end: nat)
    requires start < end <= |ordered|
    requires forall p :: start <= p < end ==> ordered[p] == ordered[start]
    requires forall i :: 0 <= i < start ==> ordered[i] < ordered[start]
    requires forall i :: end <= i < |ordered| ==> ordered[start] < ordered[i]
    ensures |Below(ordered[start], ordered)| == start
    ensures |Tied(ordered[start], ordered)| == end - start
  {
    var v := ordered[start];
    assert Below(v, ordered) == Span(0, start);
    assert Tied(v, ordered) == Span(start, end);
  }

  function Span(lo: int, hi: int): (r: set<int>)
    requires lo <= hi
    ensures |r| == hi - lo && forall i :: i in r <==> lo <= i < hi
    decreases hi - lo
  {
    if lo == hi then {} else Span(lo, hi - 1) + {hi - 1}
  }

  method GroupMean(ranks: array<real>, order: seq<int>, start: nat, end: nat) returns (mean: real)
    requires start < end <= |order| == ranks.Length
    requires forall p :: 0 <= p < |order| ==> 0 <= order[p] < ranks.Length
    requires forall p :: start <= p < end ==> ranks[order[p]] == (p + 1) as real
    ensures mean == (1 + start + end) as real / 2.0
  {
    var total := 0.0;
    for k := start to end
      invariant total == SumOfRanks(start, k)
    {
      total := total + ranks[order[k]];
    }
    SumOfRanksClosed(start, end);
    var count := (end - start) as real;
    Quotient(total, count, (1 + start + end) as real / 2.0);
    mean := total / count;
  }

  /** Overwrite one tied group with the mean of the ranks it holds. */
  method FlattenGroup(ranks: array<real>, order: seq<int>, start: nat, end: nat)
    requires start < end <= |order| == ranks.Length
    requires forall p :: 0 <= p < |order| ==> 0 <= order[p] < ranks.Length
    requires forall p, q :: 0 <= p < q < |order| ==> order[p] != order[q]
    requires forall p :: start <= p < end ==> ranks[order[p]] == (p + 1) as real
    modifies ranks
    ensures forall p :: start <= p < end ==> ranks[order[p]] == (1 + start + end) as real / 2.0
    ensures forall p :: 0 <= p < |order| && !(start <= p < end) ==> ranks[order[p]] == old(ranks[order[p]])
  {
    var mean := GroupMean(ranks, order, start, end);
    for k := start to end
      invariant forall p :: start <= p < k ==> ranks[order[p]] == mean
      invariant forall p :: 0 <= p < |order| && !(start <= p < k) ==> ranks[order[p]] == old(ranks[order[p]])
    {
      ranks[order[k]] := mean;
    }
  }

  lemma Quotient(total: real, w: real, m: real)
    requires w != 0.0 && total == w * m
    ensures total / w == m
  {
  }

  /** Positions in the sorted order, before ties are looked at. */
  method PlainRanks(order: seq<int>) returns (ranks: array<real>)
    requires forall p :: 0 <= p < |order| ==> 0 <= order[p] < |order|
    requires forall p, q :: 0 <= p < q < |order| ==> order[p] != order[q]
    ensures fresh(ranks) && ranks.Length == |order|
    ensures forall p :: 0 <= p < |order| ==> ranks[order[p]] == (p + 1) as real
  {
    ranks := new real[|order|];
    for i := 0 to |order|
      invariant forall p :: 0 <= p < i ==> ranks[order[p]] == (p + 1) as real
    {
      ranks[order[i]] := (i + 1) as real;
    }
  }

  /** The sorted order is settled up to `start`; the rest still hold their positions. */
  predicate RankedTo(ranks: seq<real>, scores: seq<real>, order: seq<int>, start: nat)
    requires IsSortingOrder(order, scores)
  {
    && |ranks| == |order| && start <= |order|
    && (forall p :: 0 <= p < start ==> ranks[order[p]] == AverageRank(scores[order[p]], scores))
    && (forall p :: start <= p < |order| ==> ranks[order[p]] == (p + 1) as real)
  }

  /** A run of one value that began at `start` has reached `end`. */
  predicate RunFrom(scores: seq<real>, order: seq<int>, start: nat, end: nat)
    requires IsSortingOrder(order, scores)
  {
    && start < end <= |order|
    && (forall p :: start <= p < end ==> scores[order[p]] == scores[order[start]])
    && (start > 0 ==> scores[order[start - 1]] < scores[order[start]])
  }

  /** A run is complete: its entries become their average rank, and nothing else moves. */
  method CloseGroup(ranks: array<real>, scores: seq<real>, order: seq<int>, start: nat, end: nat)
    requires IsSortingOrder(order, scores)
    requires RankedTo(ranks[..], scores, order, start) && RunFrom(scores, order, start, end)
    requires end == |order| || scores[order[start]] < scores[order[end]]
    modifies ranks
    ensures RankedTo(ranks[..], scores, order, end)
  {
    GroupRank(scores, order, start, end);
    if end - start > 1 {
      FlattenGroup(ranks, order, start, end);
    }
  }

  /** The in-place grouping loop: every entry ends at its average rank. */
  method AverageRanks(scores: seq<real>) returns (ranks: array<real>)
    ensures ranks.Length == |scores|
    ensures forall j :: 0 <= j < |scores| ==> ranks[j] == AverageRank(scores[j], scores)
  {
    var n := |scores|;
    var order := ArgSort(scores);
    ranks := PlainRanks(order);
    var start := 0;
    for index := 1 to n + 1
      invariant RankedTo(ranks[..], scores, order, start)
      invariant if index <= n then RunFrom(scores, order, start, index) else start == n
    {
      if index == n || scores[order[index]] != scores[order[start]] {
        CloseGroup(ranks, scores, order, start, index);
        start := index;
      }
    }
    EveryIndexRanked(scores, order, ranks[..]);
  }

  lemma EveryIndexRanked(scores: seq<real>, order: seq<int>, ranks: seq<real>)
    requires IsSortingOrder(order, scores) && |ranks| == |scores|
    requires forall p :: 0 <= p < |order| ==> ranks[order[p]] == AverageRank(scores[order[p]], scores)
    ensures forall j :: 0 <= j < |scores| ==> ranks[j] == AverageRank(scores[j], scores)
  {
    forall j | 0 <= j < |scores| ensures ranks[j] == AverageRank(scores[j], scores) {
      CoversEveryIndex(order, j);
    }
  }

  /** (start + 1) + ... + end */
  function SumOfRanks(start: nat, end: nat): real
    requires start <= end
  {
    if start == end then 0.0 else SumOfRanks(start, end - 1) + end as real
  }

  lemma {:induction false} SumOfRanksClosed(start: nat, end: nat)
    requires start <= end
    ensures SumOfRanks(start, end) == (end - start) as real * ((1 + start + end) as real / 2.0)
  {
    if start < end {
      SumOfRanksClosed(start, end - 1);
    }
  }

  /* ------------------------------------------------------------------ */
  /* The rank sum is the pair count                                       */
  /* ------------------------------------------------------------------ */

  function RankSum(xs: seq<real>, scores: seq<real>): real {
    if xs == [] then 0.0 else AverageRank(xs[0], scores) + RankSum(xs[1..], scores)
  }

  lemma {:induction false} RankSumIsCredit(xs: seq<real>, scores: seq<real>)
    ensures RankSum(xs, scores) == (|xs| + PairCredit(xs, scores)) as real / 2.0
  {
    if xs != [] {
      RankSumIsCredit(xs[1..], scores);
    }
  }

  lemma {:induction false} PairCreditSplit(xs: seq<real>, labels: seq<bool>, scores: seq<real>)
    requires |labels| == |scores|
    ensures PairCredit(xs, scores)
         == PairCredit(xs, Select(labels, scores, true)) + PairCredit(xs, Select(labels, scores, false))
  {
    if xs != [] {
      RowCreditSplit(xs[0], labels, scores);
      PairCreditSplit(xs[1..], labels, scores);
    }
  }

  lemma {:induction false} RowCreditSplit(v: real, labels: seq<bool>, scores: seq<real>)
    requires |labels| == |scores|
    ensures RowCredit(v, scores)
         == RowCredit(v, Select(labels, scores, true)) + RowCredit(v, Select(labels, scores, false))
  {
    if labels != [] {
      RowCreditSplit(v, labels[1..], scores[1..]);
      var same := Select(labels[1..], scores[1..], labels[0]);
      RowCreditAppend(v, [scores[0]], same);
      assert Select(labels, scores, labels[0]) == [scores[0]] + same;
      assert Select(labels, scores, !labels[0]) == Select(labels[1..], scores[1..], !labels[0]);
    }
  }

  /** Swapping the sides trades every win for a loss: the two credits share out 2 per pair. */
  lemma {:induction false} CreditIsShared(xs: seq<real>, bs: seq<real>)
    ensures PairCredit(xs, bs) + PairCredit(bs, xs) == 2 * (|xs| * |bs|)
  {
    if xs == [] {
      NoCredit(bs);
    } else {
      CreditIsShared(xs[1..], bs);
      ColumnPeels(bs, xs);
      assert |xs| * |bs| == |xs[1..]| * |bs| + |bs|;
    }
  }

  lemma {:induction false} NoCredit(bs: seq<real>)
    ensures PairCredit(bs, []) == 0
  {
    if bs != [] { NoCredit(bs[1..]); }
  }

  lemma {:induction false} ColumnPeels(bs: seq<real>, xs: seq<real>)
    requires xs != []
    ensures PairCredit(bs, xs) == 2 * |bs| - RowCredit(xs[0], bs) + PairCredit(bs, xs[1..])
  {
    if bs != [] { ColumnPeels(bs[1..], xs); }
  }

  lemma {:induction false} SelectSizes(labels: seq<bool>, scores: seq<real>)
    requires |labels| == |scores|
    ensures |Select(labels, scores, true)| + |Select(labels, scores, false)| == |labels|
  {
    if labels != [] { SelectSizes(labels[1..], scores[1..]); }
  }

  /** Mann-Whitney: the kept rank sum less k(k+1)/2 is half the kept class's pair credit. */
  lemma {:induction false} RankSumIsPairCount(labels: seq<bool>, scores: seq<real>)
    requires |labels| == |scores|
    ensures var kept := Select(labels, scores, true);
            var rejected := Select(labels, scores, false);
            RankSum(kept, scores) - (|kept| * (|kept| + 1)) as real / 2.0
            == PairCredit(kept, rejected) as real / 2.0
  {
    var kept := Select(labels, scores, true);
    RankSumIsCredit(kept, scores);
    PairCreditSplit(kept, labels, scores);
    CreditIsShared(kept, kept);
    Triangle(|kept|, PairCredit(kept, Select(labels, scores, false)));
  }

  lemma Triangle(k: nat, credit: nat)
    ensures (k + (k * k + credit)) as real / 2.0 - (k * (k + 1)) as real / 2.0 == credit as real / 2.0
  {
    assert k * (k + 1) == k * k + k;
  }

  method CountKept(labels: seq<bool>, ghost scores: seq<real>) returns (kept: nat)
    requires |labels| == |scores|
    ensures kept == |Select(labels, scores, true)|
  {
    kept := 0;
    for i := 0 to |labels|
      invariant kept == |Select(labels[..i], scores[..i], true)|
    {
      SelectSnoc(labels, scores, i);
      kept := kept + if labels[i] then 1 else 0;
    }
    assert labels[..|labels|] == labels && scores[..|labels|] == scores;
  }

  method SumKeptRanks(labels: seq<bool>, ranks: array<real>, ghost scores: seq<real>) returns (total: real)
    requires |labels| == |scores| == ranks.Length
    requires forall j :: 0 <= j < |scores| ==> ranks[j] == AverageRank(scores[j], scores)
    ensures total == RankSum(Select(labels, scores, true), scores)
  {
    total := 0.0;
    for i := 0 to |labels|
      invariant total == RankSum(Select(labels[..i], scores[..i], true), scores)
    {
      SelectSnoc(labels, scores, i);
      ghost var sofar := Select(labels[..i], scores[..i], true);
      RankSumSnoc(sofar, scores[i], scores);
      assert sofar + [] == sofar;
      if labels[i] { total := total + ranks[i]; }
    }
    assert labels[..|labels|] == labels && scores[..|labels|] == scores;
  }

  /** `auroc`: its three refusals, and otherwise exactly the pairwise value. */
  method Auroc(labels: seq<bool>, scores: seq<real>) returns (r: Result<real, Error>)
    ensures |labels| != |scores| ==> r == Err(LengthMismatch)
    ensures |labels| == |scores| == 0 ==> r == Err(NoCandidates)
    ensures |labels| == |scores| > 0 ==>
              var kept, rejected := Select(labels, scores, true), Select(labels, scores, false);
              r == if kept == [] || rejected == [] then Err(OneSided)
                   else Ok(PairwiseAuroc(kept, rejected))
  {
    if |labels| != |scores| { return Err(LengthMismatch); }
    if labels == [] { return Err(NoCandidates); }
    var kept := CountKept(labels, scores);
    SelectSizes(labels, scores);
    var rejected := |labels| - kept;
    if kept == 0 || rejected == 0 { return Err(OneSided); }
    var ranks := AverageRanks(scores);
    var keptRankSum := SumKeptRanks(labels, ranks, scores);
    RankSumIsPairCount(labels, scores);
    Normalised(PairCredit(Select(labels, scores, true), Select(labels, scores, false)), kept, rejected);
    r := Ok((keptRankSum - (kept * (kept + 1)) as real / 2.0) / (kept * rejected) as real);
  }

  lemma Normalised(credit: nat, kept: nat, rejected: nat)
    requires kept > 0 && rejected > 0
    ensures kept * rejected > 0
    ensures credit as real / 2.0 / (kept * rejected) as real == credit as real / (2 * (kept * rejected)) as real
  {
    var d := kept * rejected;
    assert d > 0;
    assert (2 * d) as real == 2.0 * d as real;
  }

  lemma {:induction false} SelectSnoc(labels: seq<bool>, scores: seq<real>, i: nat)
    requires i < |labels| == |scores|
    ensures Select(labels[..i + 1], scores[..i + 1], true)
         == Select(labels[..i], scores[..i], true) + if labels[i] then [scores[i]] else []
  {
    if i > 0 {
      SelectSnoc(labels[1..], scores[1..], i - 1);
      assert labels[..i + 1][1..] == labels[1..][..i] && labels[..i][1..] == labels[1..][..i - 1];
      assert scores[..i + 1][1..] == scores[1..][..i] && scores[..i][1..] == scores[1..][..i - 1];
    }
  }

  lemma {:induction false} RankSumSnoc(xs: seq<real>, x: real, scores: seq<real>)
    ensures RankSum(xs + [x], scores) == RankSum(xs, scores) + AverageRank(x, scores)
  {
    if xs == [] {
      assert xs + [x] == [x];
    } else {
      assert (xs + [x])[1..] == xs[1..] + [x];
      RankSumSnoc(xs[1..], x, scores);
    }
  }

  /* ------------------------------------------------------------------ */
  /* What the measurement cannot depend on                                */
  /* ------------------------------------------------------------------ */

  /** With ties averaged, the ranks of any corpus still sum to n(n+1)/2. */
  lemma {:induction false} RanksSumToTriangle(scores: seq<real>)
    ensures RankSum(scores, scores) == (|scores| * (|scores| + 1)) as real / 2.0
  {
    RankSumIsCredit(scores, scores);
    CreditIsShared(scores, scores);
  }

  lemma {:induction false} AurocIsAProbability(kept: seq<real>, rejected: seq<real>)
    requires kept != [] && rejected != []
    ensures 0.0 <= PairwiseAuroc(kept, rejected) <= 1.0
  {
    CreditIsShared(kept, rejected);
    var d := 2 * (|kept| * |rejected|);
    assert |kept| * |rejected| > 0;
    Ratio(PairCredit(kept, rejected), d);
  }

  lemma Ratio(a: nat, d: nat)
    requires a <= d && d > 0
    ensures 0.0 <= a as real / d as real <= 1.0
    ensures (d - a) as real / d as real == 1.0 - a as real / d as real
  {
    var x, y := a as real, d as real;
    Share(x, y - x, y);
  }

  lemma Share(p: real, q: real, y: real)
    requires 0.0 <= p && 0.0 <= q && p + q == y && y > 0.0
    ensures 0.0 <= p / y <= 1.0 && q / y == 1.0 - p / y
  {
    assert p / y + q / y == (p + q) / y;
  }

  lemma SwappedReflects(k: seq<real>, r: seq<real>)
    requires k != [] && r != []
    ensures PairwiseAuroc(r, k) == 1.0 - PairwiseAuroc(k, r)
  {
    CreditIsShared(k, r);
    assert |k| * |r| == |r| * |k| > 0;
    Ratio(PairCredit(k, r), 2 * (|k| * |r|));
  }

  /** Complementing every label reflects the value about one half. */
  lemma {:induction false} ComplementReflects(labels: seq<bool>, scores: seq<real>, flipped: seq<bool>)
    requires |labels| == |scores| == |flipped|
    requires forall i :: 0 <= i < |labels| ==> flipped[i] == !labels[i]
    requires Select(labels, scores, true) != [] && Select(labels, scores, false) != []
    ensures Select(flipped, scores, true) == Select(labels, scores, false)
    ensures Select(flipped, scores, false) == Select(labels, scores, true)
    ensures PairwiseAuroc(Select(flipped, scores, true), Select(flipped, scores, false))
         == 1.0 - PairwiseAuroc(Select(labels, scores, true), Select(labels, scores, false))
  {
    SelectFlip(labels, scores, flipped);
    SwappedReflects(Select(labels, scores, true), Select(labels, scores, false));
  }

  lemma {:induction false} SelectFlip(labels: seq<bool>, scores: seq<real>, flipped: seq<bool>)
    requires |labels| == |scores| == |flipped|
    requires forall i :: 0 <= i < |labels| ==> flipped[i] == !labels[i]
    ensures forall b :: Select(flipped, scores, b) == Select(labels, scores, !b)
  {
    if labels != [] {
      assert flipped[0] == !labels[0];
      SelectFlip(labels[1..], scores[1..], flipped[1..]);
    }
  }

  /** Any rescaling that keeps every comparison keeps the value; one that reverses them reflects it. */
  lemma {:induction false} RescalingKept(xs: seq<real>, bs: seq<real>, f: real -> real)
    requires forall a, b :: a < b ==> f(a) < f(b)
    ensures PairCredit(Apply(f, xs), Apply(f, bs)) == PairCredit(xs, bs)
  {
    if xs != [] {
      RescalingRow(xs[0], bs, f);
      RescalingKept(xs[1..], bs, f);
    }
  }

  function Apply(f: real -> real, xs: seq<real>): (r: seq<real>)
    ensures |r| == |xs|
  {
    if xs == [] then [] else [f(xs[0])] + Apply(f, xs[1..])
  }

  lemma {:induction false} RescalingRow(v: real, bs: seq<real>, f: real -> real)
    requires forall a, b :: a < b ==> f(a) < f(b)
    ensures RowCredit(f(v), Apply(f, bs)) == RowCredit(v, bs)
  {
    if bs != [] {
      RescalingRow(v, bs[1..], f);
      assert v < bs[0] ==> f(v) < f(bs[0]);
      assert bs[0] < v ==> f(bs[0]) < f(v);
    }
  }

  lemma {:induction false} ReversalSwaps(xs: seq<real>, bs: seq<real>, f: real -> real)
    requires forall a, b :: a < b ==> f(a) > f(b)
    ensures PairCredit(Apply(f, xs), Apply(f, bs)) == 2 * (|xs| * |bs|) - PairCredit(xs, bs)
  {
    if xs != [] {
      ReversalRow(xs[0], bs, f);
      ReversalSwaps(xs[1..], bs, f);
      assert |xs| * |bs| == |xs[1..]| * |bs| + |bs|;
    }
  }

  lemma {:induction false} ReversalRow(v: real, bs: seq<real>, f: real -> real)
    requires forall a, b :: a < b ==> f(a) > f(b)
    ensures RowCredit(f(v), Apply(f, bs)) == 2 * |bs| - RowCredit(v, bs)
  {
    if bs != [] {
      ReversalRow(v, bs[1..], f);
      assert v < bs[0] ==> f(v) > f(bs[0]);
      assert bs[0] < v ==> f(bs[0]) > f(v);
    }
  }

  lemma {:induction false} SelectRescaled(labels: seq<bool>, scores: seq<real>, wanted: bool, f: real -> real)
    requires |labels| == |scores|
    ensures Select(labels, Apply(f, scores), wanted) == Apply(f, Select(labels, scores, wanted))
  {
    if labels != [] {
      assert Apply(f, scores)[1..] == Apply(f, scores[1..]);
      SelectRescaled(labels[1..], scores[1..], wanted, f);
      ApplyConcat(f, if labels[0] == wanted then [scores[0]] else [], Select(labels[1..], scores[1..], wanted));
    }
  }

  lemma ApplyConcat(f: real -> real, xs: seq<real>, ys: seq<real>)
    requires |xs| <= 1
    ensures Apply(f, xs + ys) == Apply(f, xs) + Apply(f, ys)
  {
    if xs == [] {
      assert xs + ys == ys;
    } else {
      assert (xs + ys)[1..] == ys && xs[1..] == [];
    }
  }

  lemma {:induction false} RescaledPairs(kept: seq<real>, rejected: seq<real>, f: real -> real)
    requires kept != [] && rejected != []
    ensures (forall a, b :: a < b ==> f(a) < f(b)) ==>
              PairwiseAuroc(Apply(f, kept), Apply(f, rejected)) == PairwiseAuroc(kept, rejected)
    ensures (forall a, b :: a < b ==> f(a) > f(b)) ==>
              PairwiseAuroc(Apply(f, kept), Apply(f, rejected)) == 1.0 - PairwiseAuroc(kept, rejected)
  {
    CreditIsShared(kept, rejected);
    assert |kept| * |rejected| > 0;
    Ratio(PairCredit(kept, rejected), 2 * (|kept| * |rejected|));
    if forall a, b :: a < b ==> f(a) < f(b) {
      RescalingKept(kept, rejected, f);
    }
    if forall a, b :: a < b ==> f(a) > f(b) {
      ReversalSwaps(kept, rejected, f);
    }
  }

  /** A labelled corpus with every score transformed: nothing changes going up, and it reflects going down. */
  lemma RescaledAuroc(labels: seq<bool>, scores: seq<real>, f: real -> real)
    requires |labels| == |scores|
    requires Select(labels, scores, true) != [] && Select(labels, scores, false) != []
    ensures var kept, rejected := Select(labels, scores, true), Select(labels, scores, false);
            var kept', rejected' := Select(labels, Apply(f, scores), true), Select(labels, Apply(f, scores), false);
            && kept' != [] && rejected' != []
            && ((forall a, b :: a < b ==> f(a) < f(b)) ==>
                  PairwiseAuroc(kept', rejected') == PairwiseAuroc(kept, rejected))
            && ((forall a, b :: a < b ==> f(a) > f(b)) ==>
                  PairwiseAuroc(kept', rejected') == 1.0 - PairwiseAuroc(kept, rejected))
  {
    SelectRescaled(labels, scores, true, f);
    SelectRescaled(labels, scores, false, f);
    RescaledPairs(Select(labels, scores, true), Select(labels, scores, false), f);
  }

  /** Reordering the corpus, labels and scores together, moves nothing. */
  lemma {:induction false} CorpusOrderIrrelevant(
    labels: seq<bool>, scores: seq<real>, labels': seq<bool>, scores': seq<real>)
    requires |labels| == |scores| && |labels'| == |scores'|
    requires multiset(Zip(labels, scores)) == multiset(Zip(labels', scores'))
    ensures forall b :: multiset(Select(labels, scores, b)) == multiset(Select(labels', scores', b))
    ensures PairCredit(Select(labels, scores, true), Select(labels, scores, false))
         == PairCredit(Select(labels', scores', true), Select(labels', scores', false))
    ensures Select(labels, scores, true) != [] && Select(labels, scores, false) != [] ==>
              && Select(labels', scores', true) != [] && Select(labels', scores', false) != []
              && PairwiseAuroc(Select(labels', scores', true), Select(labels', scores', false))
              == PairwiseAuroc(Select(labels, scores, true), Select(labels, scores, false))
  {
    forall b ensures multiset(Select(labels, scores, b)) == multiset(Select(labels', scores', b)) {
      forall v ensures multiset(Select(labels, scores, b))[v] == multiset(Select(labels', scores', b))[v] {
        SelectCounts(labels, scores, b, v);
        SelectCounts(labels', scores', b, v);
      }
    }
    var k, r := Select(labels, scores, true), Select(labels, scores, false);
    var k', r' := Select(labels', scores', true), Select(labels', scores', false);
    PairCreditPermutation(k, k', r);
    PairCreditPermutation(r, r', k');
    CreditIsShared(k', r);
    CreditIsShared(k', r');
    assert |r| == |multiset(r)| == |multiset(r')| == |r'|;
    assert |k| == |multiset(k)| == |multiset(k')| == |k'|;
  }

  function Zip(labels: seq<bool>, scores: seq<real>): seq<(bool, real)>
    requires |labels| == |scores|
  {
    if labels == [] then [] else [(labels[0], scores[0])] + Zip(labels[1..], scores[1..])
  }

  lemma {:induction false} SelectCounts(labels: seq<bool>, scores: seq<real>, b: bool, v: real)
    requires |labels| == |scores|
    ensures multiset(Select(labels, scores, b))[v] == multiset(Zip(labels, scores))[(b, v)]
  {
    if labels != [] {
      SelectCounts(labels[1..], scores[1..], b, v);
    }
  }

  lemma {:induction false} PairCreditPermutation(xs: seq<real>, ys: seq<real>, bs: seq<real>)
    requires multiset(xs) == multiset(ys)
    ensures PairCredit(xs, bs) == PairCredit(ys, bs)
  {
    if xs == [] {
      assert |ys| == |multiset(ys)| == 0;
    } else {
      var k := HeadElsewhere(xs, ys);
      var rest := ys[..k] + ys[k + 1..];
      PairCreditPermutation(xs[1..], rest, bs);
      PairCreditMiddle(ys, k, bs);
    }
  }

  lemma {:induction false} PairCreditMiddle(ys: seq<real>, k: nat, bs: seq<real>)
    requires k < |ys|
    ensures PairCredit(ys, bs) == RowCredit(ys[k], bs) + PairCredit(ys[..k] + ys[k + 1..], bs)
  {
    if k == 0 {
      assert ys[..k] + ys[k + 1..] == ys[1..];
    } else {
      PairCreditMiddle(ys[1..], k - 1, bs);
      assert (ys[..k] + ys[k + 1..])[1..] == ys[1..][..k - 1] + ys[1..][k..];
    }
  }
}
