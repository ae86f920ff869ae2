/**
  Partitioning draws by mutual entailment (`pipeline/l3_score/entropy.py`): a
  union-find with path halving over an array, against a reference that speaks
  only of chains of agreement.
*/
module MeaningClusters {
  import opened Prelude
  import opened Entailment
  import opened SemanticEntropy

  const SAME_MEANING := 0.8

  datatype Refusal = NoSamples | Unscored(fault: Fault)

  datatype Clusters = Clusters(labels: seq<nat>, entropy: real, minority: seq<nat>)

  /* ------------------------------------------------------------------ */
  /* The reference                                                        */
  /* ------------------------------------------------------------------ */

  predicate Clears(answers: map<Pair, real>, premise: string, hypothesis: string) {
    var r := Entail(answers, premise, hypothesis);
    r.Ok? && r.value >= SAME_MEANING
  }

  /** Two answered draws entail each other. */
  predicate Agree(samples: seq<Option<string>>, answers: map<Pair, real>, i: nat, j: nat) {
    && i < |samples| && j < |samples| && samples[i].Some? && samples[j].Some?
    && Clears(answers, samples[i].value, samples[j].value) && Clears(answers, samples[j].value, samples[i].value)
  }

  predicate LinkAt(samples: seq<Option<string>>, answers: map<Pair, real>, c: seq<nat>, k: int) {
    0 <= k && k + 1 < |c| ==> Agree(samples, answers, c[k], c[k + 1])
  }

  /** Each draw agrees with the next. */
  ghost predicate Chain(samples: seq<Option<string>>, answers: map<Pair, real>, c: seq<nat>) {
    && |c| > 0 && (forall k :: 0 <= k < |c| ==> c[k] < |samples|)
    && forall k {:trigger LinkAt(samples, answers, c, k)} :: LinkAt(samples, answers, c, k)
  }

  ghost predicate ChainFrom(samples: seq<Option<string>>, answers: map<Pair, real>, c: seq<nat>, i: nat, j: nat) {
    Chain(samples, answers, c) && c[0] == i && c[|c| - 1] == j
  }

  ghost predicate Connected(samples: seq<Option<string>>, answers: map<Pair, real>, i: nat, j: nat) {
    exists c :: ChainFrom(samples, answers, c, i, j)
  }

  lemma ConnectedSelf(samples: seq<Option<string>>, answers: map<Pair, real>, i: nat)
    requires i < |samples|
    ensures Connected(samples, answers, i, i)
  {
    assert ChainFrom(samples, answers, [i], i, i);
  }

  lemma ConnectedStep(samples: seq<Option<string>>, answers: map<Pair, real>, i: nat, j: nat)
    requires Agree(samples, answers, i, j)
    ensures Connected(samples, answers, i, j)
  {
    assert ChainFrom(samples, answers, [i, j], i, j);
  }

  function Reverse(c: seq<nat>): (r: seq<nat>)
    ensures |r| == |c| && forall k :: 0 <= k < |c| ==> r[k] == c[|c| - 1 - k]
  {
    seq(|c|, k requires 0 <= k < |c| => c[|c| - 1 - k])
  }

  lemma ConnectedBack(samples: seq<Option<string>>, answers: map<Pair, real>, i: nat, j: nat)
    requires Connected(samples, answers, i, j)
    ensures Connected(samples, answers, j, i)
  {
    var c :| ChainFrom(samples, answers, c, i, j);
    var r := Reverse(c);
    forall k ensures LinkAt(samples, answers, r, k) {
      assert LinkAt(samples, answers, c, |c| - 2 - k);
    }
    assert ChainFrom(samples, answers, r, j, i);
  }

  lemma ConnectedOn(samples: seq<Option<string>>, answers: map<Pair, real>, i: nat, j: nat, k: nat)
    requires Connected(samples, answers, i, j) && Connected(samples, answers, j, k)
    ensures Connected(samples, answers, i, k)
  {
    var c :| ChainFrom(samples, answers, c, i, j);
    var d :| ChainFrom(samples, answers, d, j, k);
    var e := c + d[1..];
    forall m ensures LinkAt(samples, answers, e, m) {
      assert LinkAt(samples, answers, c, m) && LinkAt(samples, answers, d, m + 1 - |c|);
    }
    assert ChainFrom(samples, answers, e, i, k);
  }

  /** A labelling under which agreeing draws share a label. */
  ghost predicate Respects(samples: seq<Option<string>>, answers: map<Pair, real>, labels: seq<nat>) {
    |labels| == |samples| && forall i: nat, j: nat :: Agree(samples, answers, i, j) ==> labels[i] == labels[j]
  }

  lemma {:induction false} ChainsShareLabel(
    samples: seq<Option<string>>, answers: map<Pair, real>, labels: seq<nat>, c: seq<nat>)
    requires Respects(samples, answers, labels) && Chain(samples, answers, c)
    ensures labels[c[0]] == labels[c[|c| - 1]]
    decreases |c|
  {
    if |c| > 1 {
      assert LinkAt(samples, answers, c, 0);
      forall k ensures LinkAt(samples, answers, c[1..], k) { assert LinkAt(samples, answers, c, k + 1); }
      ChainsShareLabel(samples, answers, labels, c[1..]);
    }
  }

  /** Each label is the least draw connected to its own. */
  ghost predicate LeastLabels(samples: seq<Option<string>>, answers: map<Pair, real>, labels: seq<nat>) {
    && |labels| == |samples|
    && (forall i :: 0 <= i < |labels| ==> labels[i] <= i && Connected(samples, answers, i, labels[i]))
    && (forall i, j :: 0 <= i < |labels| && 0 <= j < |labels| ==>
          (labels[i] == labels[j] <==> Connected(samples, answers, i, j)))
  }

  /* ------------------------------------------------------------------ */
  /* The forest                                                           */
  /* ------------------------------------------------------------------ */

  /** Parents never point up. */
  predicate Forest(p: seq<nat>) { forall i :: 0 <= i < |p| ==> p[i] <= i }

  function Root(p: seq<nat>, i: nat): (r: nat)
    requires Forest(p) && i < |p|
    ensures r <= i && p[r] == r
    decreases i
  {
    if p[i] == i then i else Root(p, p[i])
  }

  /** Halving a path moves no root. */
  lemma {:induction false} HalvingKeepsRoots(p: seq<nat>, x: nat, i: nat)
    requires Forest(p) && x < |p| && i < |p|
    ensures Forest(p[x := p[p[x]]]) && Root(p[x := p[p[x]]], i) == Root(p, i)
    decreases i
  {
    var q := p[x := p[p[x]]];
    if q[i] != i { HalvingKeepsRoots(p, x, q[i]); }
  }

  /** Hanging one root under a smaller one merges exactly those two trees. */
  lemma {:induction false} LinkingMergesRoots(p: seq<nat>, lo: nat, hi: nat, i: nat)
    requires Forest(p) && lo < hi < |p| && p[lo] == lo && p[hi] == hi && i < |p|
    ensures Forest(p[hi := lo]) && Root(p[hi := lo], i) == if Root(p, i) == hi then lo else Root(p, i)
    decreases i
  {
    var q := p[hi := lo];
    assert Root(q, lo) == lo;
    if i != hi && p[i] != i { LinkingMergesRoots(p, lo, hi, p[i]); }
  }

  predicate SameRoots(p: seq<nat>, q: seq<nat>) {
    Forest(p) && Forest(q) && |p| == |q| && forall i :: 0 <= i < |p| ==> Root(p, i) == Root(q, i)
  }

  /** `_find` */
  method Find(parent: array<nat>, start: nat) returns (node: nat)
    requires Forest(parent[..]) && start < parent.Length
    modifies parent
    ensures SameRoots(parent[..], old(parent[..])) && node == Root(old(parent[..]), start)
  {
    node := start;
    while parent[node] != node
      invariant node < parent.Length && SameRoots(parent[..], old(parent[..]))
      invariant Root(parent[..], node) == Root(old(parent[..]), start)
      decreases node
    {
      ghost var before := parent[..];
      forall i | 0 <= i < |before|
        ensures Forest(before[node := before[before[node]]])
        ensures Root(before[node := before[before[node]]], i) == Root(before, i)
      {
        HalvingKeepsRoots(before, node, i);
      }
      assert Root(before, node) == Root(before, before[node]);
      parent[node] := parent[parent[node]];
      assert parent[..] == before[node := before[before[node]]];
      node := parent[node];
    }
  }

  /** `_union`: the lower root wins. */
  method Union(parent: array<nat>, left: nat, right: nat)
    requires Forest(parent[..]) && left < parent.Length && right < parent.Length
    modifies parent
    ensures Forest(parent[..])
    ensures forall i :: 0 <= i < parent.Length ==>
              Root(parent[..], i) == Merged(old(parent[..]), left, right, i)
  {
    var rootLeft := Find(parent, left);
    var rootRight := Find(parent, right);
    ghost var before := parent[..];
    if rootLeft != rootRight {
      var lo: nat := if rootLeft < rootRight then rootLeft else rootRight;
      var hi: nat := if rootLeft < rootRight then rootRight else rootLeft;
      forall i | 0 <= i < |before|
        ensures Forest(before[hi := lo])
        ensures Root(before[hi := lo], i) == if Root(before, i) == hi then lo else Root(before, i)
      {
        LinkingMergesRoots(before, lo, hi, i);
      }
      parent[hi] := lo;
      assert parent[..] == before[hi := lo];
    }
  }

  /** The root of `i` once the trees of `left` and `right` are one. */
  function Merged(p: seq<nat>, left: nat, right: nat, i: nat): nat
    requires Forest(p) && left < |p| && right < |p| && i < |p|
  {
    var a, b := Root(p, left), Root(p, right);
    if Root(p, i) == a || Root(p, i) == b then (if a < b then a else b) else Root(p, i)
  }

  /* ------------------------------------------------------------------ */
  /* The clustering                                                       */
  /* ------------------------------------------------------------------ */

  /** Clustering `i` against `j` asks for a pair nobody scored. */
  predicate AsksUnscored(samples: seq<Option<string>>, answers: map<Pair, real>, i: nat, j: nat) {
    && i < j < |samples| && samples[i].Some? && samples[j].Some?
    && (Entail(answers, samples[i].value, samples[j].value).Err?
        || (Clears(answers, samples[i].value, samples[j].value)
            && Entail(answers, samples[j].value, samples[i].value).Err?))
  }

  /** And this is what it is told. */
  function FaultAt(samples: seq<Option<string>>, answers: map<Pair, real>, i: nat, j: nat): Fault
    requires AsksUnscored(samples, answers, i, j)
  {
    var forward := Entail(answers, samples[i].value, samples[j].value);
    if forward.Err? then forward.error else Entail(answers, samples[j].value, samples[i].value).error
  }

  /** Pairs before `(left, right)` in the order of the two loops. */
  predicate Before(i: int, j: int, left: int, right: int) { i < left || (i == left && j < right) }

  /** The forest so far: agreeing pairs already seen share a root, and every draw is connected to its root. */
  ghost predicate Progress(samples: seq<Option<string>>, answers: map<Pair, real>, p: seq<nat>, left: int, right: int) {
    && Forest(p) && |p| == |samples|
    && (forall i: nat, j: nat :: i < j < |p| && Before(i, j, left, right) && Agree(samples, answers, i, j)
          ==> Root(p, i) == Root(p, j))
    && (forall i :: 0 <= i < |p| ==> Connected(samples, answers, i, Root(p, i)))
  }

  lemma Starts(samples: seq<Option<string>>, answers: map<Pair, real>, p: seq<nat>)
    requires |p| == |samples| && forall i :: 0 <= i < |p| ==> p[i] == i
    ensures Progress(samples, answers, p, 0, 1)
  {
    forall i | 0 <= i < |p| ensures Connected(samples, answers, i, Root(p, i)) { ConnectedSelf(samples, answers, i); }
  }

  lemma Passes(samples: seq<Option<string>>, answers: map<Pair, real>, p: seq<nat>, left: nat, right: nat)
    requires Progress(samples, answers, p, left, right) && !Agree(samples, answers, left, right)
    ensures Progress(samples, answers, p, left, right + 1)
  {
  }

  lemma Joins(samples: seq<Option<string>>, answers: map<Pair, real>, p: seq<nat>, q: seq<nat>, left: nat, right: nat)
    requires Progress(samples, answers, p, left, right) && left < right < |p| && Agree(samples, answers, left, right)
    requires Forest(q) && |q| == |p| && forall i :: 0 <= i < |q| ==> Root(q, i) == Merged(p, left, right, i)
    ensures Progress(samples, answers, q, left, right + 1)
  {
    ConnectedStep(samples, answers, left, right);
    forall i | 0 <= i < |q| ensures Connected(samples, answers, i, Root(q, i)) {
      MergedIsConnected(samples, answers, p, left, right, i);
    }
    forall i: nat, j: nat | i < j < |q| && Before(i, j, left, right + 1) && Agree(samples, answers, i, j)
      ensures Root(q, i) == Root(q, j)
    {
      assert (i, j) == (left, right) || (Before(i, j, left, right) && Root(p, i) == Root(p, j));
      assert Root(q, i) == Merged(p, left, right, i) && Root(q, j) == Merged(p, left, right, j);
    }
  }

  lemma MergedIsConnected(
    samples: seq<Option<string>>, answers: map<Pair, real>, p: seq<nat>, left: nat, right: nat, i: nat)
    requires Forest(p) && left < |p| && right < |p| && i < |p|
    requires forall k :: 0 <= k < |p| ==> Connected(samples, answers, k, Root(p, k))
    requires Connected(samples, answers, left, right)
    ensures Connected(samples, answers, i, Merged(p, left, right, i))
  {
    var a, b := Root(p, left), Root(p, right);
    ConnectedBack(samples, answers, left, a);
    ConnectedOn(samples, answers, a, left, right);
    ConnectedOn(samples, answers, a, right, b);
    ConnectedBack(samples, answers, a, b);
    if Root(p, i) == a { ConnectedOn(samples, answers, i, a, b); }
    if Root(p, i) == b { ConnectedOn(samples, answers, i, b, a); }
  }

  lemma Finishes(samples: seq<Option<string>>, answers: map<Pair, real>, p: seq<nat>, labels: seq<nat>)
    requires Progress(samples, answers, p, |samples|, 0)
    requires |labels| == |p| && forall i :: 0 <= i < |p| ==> labels[i] == Root(p, i)
    ensures LeastLabels(samples, answers, labels)
  {
    forall i: nat, j: nat | Agree(samples, answers, i, j) ensures labels[i] == labels[j] {
      if i < j { assert Before(i, j, |samples|, 0); }
      if j < i { assert Agree(samples, answers, j, i) && Before(j, i, |samples|, 0); }
    }
    assert Respects(samples, answers, labels);
    forall i, j | 0 <= i < |labels| && 0 <= j < |labels|
      ensures labels[i] == labels[j] <==> Connected(samples, answers, i, j)
    {
      if Connected(samples, answers, i, j) {
        var c :| ChainFrom(samples, answers, c, i, j);
        ChainsShareLabel(samples, answers, labels, c);
      }
      if labels[i] == labels[j] {
        ConnectedBack(samples, answers, j, labels[j]);
        ConnectedOn(samples, answers, i, labels[i], j);
      }
    }
  }

  function Minority(labels: seq<nat>, n: nat): seq<nat>
    requires n <= |labels|
  {
    if n == 0 then [] else Minority(labels, n - 1) + (if labels[n - 1] != labels[0] then [n - 1] else [])
  }

  lemma {:induction false} MinorityHolds(labels: seq<nat>, n: nat)
    requires n <= |labels|
    ensures forall k: nat :: k in Minority(labels, n) <==> k < n && labels[k] != labels[0]
    ensures forall i, j :: 0 <= i < j < |Minority(labels, n)| ==> Minority(labels, n)[i] < Minority(labels, n)[j]
  {
    if n > 0 {
      MinorityHolds(labels, n - 1);
      var before := Minority(labels, n - 1);
      forall i | 0 <= i < |before| ensures before[i] < n - 1 { assert before[i] in before; }
    }
  }

  /** The minority is every draw not connected to draw zero, each once and in order. */
  lemma MinorityIsDisconnected(samples: seq<Option<string>>, answers: map<Pair, real>, labels: seq<nat>, k: nat)
    requires LeastLabels(samples, answers, labels) && k < |labels|
    ensures k in Minority(labels, |labels|) <==> !Connected(samples, answers, k, 0)
  {
    MinorityHolds(labels, |labels|);
  }

  /** No question before `(left, right)` went unanswered. */
  ghost predicate NothingMissing(samples: seq<Option<string>>, answers: map<Pair, real>, left: int, right: int) {
    forall i: nat, j: nat {:trigger AsksUnscored(samples, answers, i, j)} ::
      Before(i, j, left, right) ==> !AsksUnscored(samples, answers, i, j)
  }

  /** One turn of the pair loop: compare two draws, and join them if each entails the other. */
  method Compare(parent: array<nat>, samples: seq<Option<string>>, answers: map<Pair, real>, left: nat, right: nat)
    returns (missing: Option<Fault>)
    requires left < right < |samples| && Progress(samples, answers, parent[..], left, right)
    modifies parent
    ensures missing.Some? <==> AsksUnscored(samples, answers, left, right)
    ensures missing.Some? ==> missing.value == FaultAt(samples, answers, left, right)
    ensures missing.None? ==> Progress(samples, answers, parent[..], left, right + 1)
  {
    ghost var before := parent[..];
    missing := None;
    var first, second := samples[left], samples[right];
    if first.None? || second.None? {
      Passes(samples, answers, before, left, right);
      return;
    }
    var forward := Entail(answers, first.value, second.value);
    if forward.Err? {
      return Some(forward.error);
    }
    if forward.value < SAME_MEANING {
      Passes(samples, answers, before, left, right);
      return;
    }
    var backward := Entail(answers, second.value, first.value);
    if backward.Err? {
      return Some(backward.error);
    }
    if backward.value < SAME_MEANING {
      Passes(samples, answers, before, left, right);
      return;
    }
    assert Agree(samples, answers, left, right);
    Union(parent, left, right);
    Joins(samples, answers, before, parent[..], left, right);
  }

  method Labels(parent: array<nat>) returns (labels: seq<nat>)
    requires Forest(parent[..])
    modifies parent
    ensures |labels| == parent.Length
    ensures forall i :: 0 <= i < parent.Length ==> labels[i] == Root(old(parent[..]), i)
  {
    ghost var p := parent[..];
    labels := [];
    for index := 0 to parent.Length
      invariant SameRoots(parent[..], p)
      invariant |labels| == index && forall i :: 0 <= i < index ==> labels[i] == Root(p, i)
    {
      var root := Find(parent, index);
      labels := labels + [root];
    }
  }

  /** The clustering stopped at this pair: the first, in the loops' order, that nobody scored. */
  ghost predicate StopsAt(samples: seq<Option<string>>, answers: map<Pair, real>, i: nat, j: nat, refusal: Refusal) {
    && AsksUnscored(samples, answers, i, j) && NothingMissing(samples, answers, i, j)
    && refusal == Unscored(FaultAt(samples, answers, i, j))
  }

  /**
    `cluster_meanings`: labels are the least connected draws, with the entropy
    and the minority of those labels. The only ways to fail are no samples at
    all or a question the callable cannot answer, and then the first of them.
  */
  method ClusterMeanings(samples: seq<Option<string>>, answers: map<Pair, real>, ln: real -> real)
    returns (r: Result<Clusters, Refusal>)
    requires |samples| > 1 ==> ln(|samples| as real) != 0.0
    ensures r.Ok? ==> LeastLabels(samples, answers, r.value.labels)
    ensures r.Ok? ==> samples != [] && r.value.entropy == NormalisedEntropy(ln, r.value.labels)
    ensures r.Ok? ==> r.value.minority == Minority(r.value.labels, |samples|)
    ensures r == Err(NoSamples) <==> samples == []
    ensures r.Err? && r != Err(NoSamples) <==> exists i: nat, j: nat :: AsksUnscored(samples, answers, i, j)
    ensures r.Err? && r != Err(NoSamples) ==> exists i: nat, j: nat :: StopsAt(samples, answers, i, j, r.error)
  {
    var size := |samples|;
    if size == 0 {
      return Err(NoSamples);
    }
    var parent := new nat[size](i => i);
    Starts(samples, answers, parent[..]);
    for left := 0 to size
      invariant Progress(samples, answers, parent[..], left, left + 1)
      invariant NothingMissing(samples, answers, left, left + 1)
    {
      for right := left + 1 to size
        invariant Progress(samples, answers, parent[..], left, right)
        invariant NothingMissing(samples, answers, left, right)
      {
        var missing := Compare(parent, samples, answers, left, right);
        if missing.Some? {
          assert StopsAt(samples, answers, left, right, Unscored(missing.value));
          return Err(Unscored(missing.value));
        }
      }
      NextRow(samples, answers, parent[..], left);
    }
    assert Progress(samples, answers, parent[..], size, 0);
    ghost var done := parent[..];
    var labels := Labels(parent);
    Finishes(samples, answers, done, labels);
    r := Ok(Clusters(labels, NormalisedEntropy(ln, labels), Minority(labels, size)));
  }

  lemma NextRow(samples: seq<Option<string>>, answers: map<Pair, real>, p: seq<nat>, left: nat)
    requires left < |samples| && Progress(samples, answers, p, left, |samples|)
    requires NothingMissing(samples, answers, left, |samples|)
    ensures Progress(samples, answers, p, left + 1, left + 2)
    ensures NothingMissing(samples, answers, left + 1, left + 2)
  {
    forall i: nat, j: nat | Before(i, j, left + 1, left + 2) && i < j < |p| && Agree(samples, answers, i, j)
      ensures Root(p, i) == Root(p, j)
    {
      assert Before(i, j, left, |samples|);
    }
    forall i: nat, j: nat | Before(i, j, left + 1, left + 2) ensures !AsksUnscored(samples, answers, i, j) {
      if AsksUnscored(samples, answers, i, j) { assert Before(i, j, left, |samples|); }
    }
  }

  /* ---- what follows ---------------------------------------------------------------- */

  /** The labels are fixed by the draws and the answers: no order of comparison can show. */
  lemma LabelsAreDetermined(samples: seq<Option<string>>, answers: map<Pair, real>, a: seq<nat>, b: seq<nat>)
    requires LeastLabels(samples, answers, a) && LeastLabels(samples, answers, b)
    ensures a == b
  {
    forall i | 0 <= i < |a| ensures a[i] == b[i] {
      IdempotentLabels(samples, answers, a, i);
      IdempotentLabels(samples, answers, b, i);
      assert Connected(samples, answers, i, a[i]) && Connected(samples, answers, i, b[i]);
      assert b[a[i]] == b[i] && a[b[i]] == a[i];
    }
  }

  lemma IdempotentLabels(samples: seq<Option<string>>, answers: map<Pair, real>, labels: seq<nat>, i: nat)
    requires LeastLabels(samples, answers, labels) && i < |labels|
    ensures labels[labels[i]] == labels[i]
  {
    assert Connected(samples, answers, i, labels[i]);
  }

  /** An abstention is its own cluster, and draw zero is labelled zero. */
  lemma AbstentionsStandAlone(samples: seq<Option<string>>, answers: map<Pair, real>, labels: seq<nat>, i: nat)
    requires LeastLabels(samples, answers, labels) && i < |samples|
    ensures labels[0] == 0
    ensures samples[i].None? ==> forall j :: 0 <= j < |samples| ==> (labels[j] == labels[i] <==> j == i)
  {
    if samples[i].None? {
      forall j | 0 <= j < |samples| ensures labels[j] == labels[i] <==> j == i {
        if labels[j] == labels[i] {
          assert Connected(samples, answers, i, j);
          var c :| ChainFrom(samples, answers, c, i, j);
          assert LinkAt(samples, answers, c, 0);
        }
      }
    }
  }

  /** No entropy exactly when every draw is connected to draw zero; all of it exactly when no two are connected. */
  lemma EntropyMeansDisagreement(
    samples: seq<Option<string>>, answers: map<Pair, real>, labels: seq<nat>, ln: real -> real)
    requires LeastLabels(samples, answers, labels) && samples != [] && NaturalLog(ln)
    ensures |labels| > 1 ==> ln(|labels| as real) != 0.0
    ensures 0.0 <= NormalisedEntropy(ln, labels) <= 1.0
    ensures NormalisedEntropy(ln, labels) == 0.0 <==>
              forall i: nat :: i < |samples| ==> Connected(samples, answers, i, 0)
    ensures NormalisedEntropy(ln, labels) == 1.0 <==>
              |samples| > 1 && forall i: nat, j: nat :: i < j < |samples| ==> !Connected(samples, answers, i, j)
  {
    EntropyExtremes(ln, labels);
    if AllSame(labels) {
      forall i: nat | i < |samples| ensures Connected(samples, answers, i, 0) { assert labels[i] == labels[0]; }
    }
    if forall i: nat :: i < |samples| ==> Connected(samples, answers, i, 0) {
      forall i | 0 <= i < |labels| ensures labels[i] == labels[0] { assert Connected(samples, answers, i, 0); }
    }
    if AllDifferent(labels) {
      forall i: nat, j: nat | i < j < |samples| ensures !Connected(samples, answers, i, j) {
        assert labels[i] != labels[j];
      }
    }
    if forall i: nat, j: nat :: i < j < |samples| ==> !Connected(samples, answers, i, j) {
      forall i, j | 0 <= i < j < |labels| ensures labels[i] != labels[j] {
        assert !Connected(samples, answers, i, j);
      }
    }
  }

  /** Asked of a callable built from `entail_pairs` on the same draws, the clustering never meets an unscored pair. */
  lemma PreparedDrawsAreScored(
    draws: seq<Option<string>>, verbatim: string, claim: string, reply: seq<real>, i: nat, j: nat)
    requires Lookup(EntailPairs(draws, verbatim, claim), reply).Ok?
    ensures !AsksUnscored(draws, Lookup(EntailPairs(draws, verbatim, claim), reply).value, i, j)
  {
    if i < j < |draws| && draws[i].Some? && draws[j].Some? {
      var pairs := EntailPairs(draws, verbatim, claim);
      EveryQuestionIsAsked(draws, verbatim, claim, i, j);
      AnswersWhatWasAsked(pairs, reply, draws[i].value, draws[j].value);
      AnswersWhatWasAsked(pairs, reply, draws[j].value, draws[i].value);
    }
  }
}
