/**
  Asking an entailment model once for every pair the scorer might need
  (`llm/entailment.py`, `pipeline/inputs.py`), and pairing its positional reply
  back to the questions.
*/
module Entailment {
  import opened Prelude

  datatype Pair = Pair(premise: string, hypothesis: string)

  datatype Fault = ValidationRejected | KeyError(pair: Pair)

  const SELF_ENTAILMENT := 1.0

  /* ---- the questions ------------------------------------------------------- */

  function Answered(draws: seq<Option<string>>): seq<string> {
    if draws == [] then []
    else (if draws[0].Some? then [draws[0].value] else []) + Answered(draws[1..])
  }

  /** One answer against each later one, both directions. */
  function BothWays(left: string, rights: seq<string>): seq<Pair> {
    if rights == [] then [] else [Pair(left, rights[0]), Pair(rights[0], left)] + BothWays(left, rights[1..])
  }

  function AllWays(answers: seq<string>): seq<Pair> {
    if answers == [] then [] else BothWays(answers[0], answers[1..]) + AllWays(answers[1..])
  }

  /** `entail_pairs`: grounding first, then both directions of every two answered draws. */
  function EntailPairs(draws: seq<Option<string>>, verbatim: string, claim: string): seq<Pair> {
    [Pair(verbatim, claim)] + AllWays(Answered(draws))
  }

  lemma RowPeels(left: string, answers: seq<string>, i: nat)
    requires i < |answers|
    ensures BothWays(left, answers[i..])
         == [Pair(left, answers[i]), Pair(answers[i], left)] + BothWays(left, answers[i + 1..])
  {
    assert answers[i..][1..] == answers[i + 1..];
  }

  lemma RowsPeel(answers: seq<string>, i: nat)
    requires i < |answers|
    ensures AllWays(answers[i..]) == BothWays(answers[i], answers[i + 1..]) + AllWays(answers[i + 1..])
  {
    assert answers[i..][1..] == answers[i + 1..];
  }

  lemma Glue(a: seq<Pair>, b: seq<Pair>, c: seq<Pair>)
    ensures a + (b + c) == (a + b) + c
  {
  }

  /** One draw against every later one. */
  method ExtendRow(answered: seq<string>, i: nat, start: seq<Pair>) returns (pairs: seq<Pair>)
    requires i < |answered|
    ensures pairs == start + BothWays(answered[i], answered[i + 1..])
  {
    pairs := start;
    ghost var whole := start + BothWays(answered[i], answered[i + 1..]);
    for j := i + 1 to |answered|
      invariant whole == pairs + BothWays(answered[i], answered[j..])
    {
      var more := [Pair(answered[i], answered[j]), Pair(answered[j], answered[i])];
      RowPeels(answered[i], answered, j);
      Glue(pairs, more, BothWays(answered[i], answered[j + 1..]));
      pairs := pairs + more;
    }
  }

  /** `entail_pairs` as written: one list, extended pair of draws by pair of draws. */
  method CollectPairs(draws: seq<Option<string>>, verbatim: string, claim: string) returns (pairs: seq<Pair>)
    ensures pairs == EntailPairs(draws, verbatim, claim)
  {
    var answered := Answered(draws);
    pairs := [Pair(verbatim, claim)];
    ghost var whole := EntailPairs(draws, verbatim, claim);
    assert answered[0..] == answered;
    for i := 0 to |answered|
      invariant whole == pairs + AllWays(answered[i..])
    {
      RowsPeel(answered, i);
      Glue(pairs, BothWays(answered[i], answered[i + 1..]), AllWays(answered[i + 1..]));
      pairs := ExtendRow(answered, i, pairs);
    }
    assert answered[|answered|..] == [] && pairs + [] == pairs;
  }

  /** One fact a draw proposed, its object rendered. */
  datatype Extracted = Extracted(subject: string, relation: string, answer: string)

  predicate About(fact: Extracted, subject: string, relation: string) {
    fact.subject == subject && fact.relation == relation
  }

  predicate FirstAbout(draw: seq<Extracted>, subject: string, relation: string, k: int) {
    && 0 <= k < |draw| && About(draw[k], subject, relation)
    && forall i :: 0 <= i < k ==> !About(draw[i], subject, relation)
  }

  /** `_first_object`: the first answer stands, whatever a draw says later. */
  method FirstObject(draw: seq<Extracted>, subject: string, relation: string) returns (r: Option<string>)
    ensures r.None? <==> forall k :: 0 <= k < |draw| ==> !About(draw[k], subject, relation)
    ensures r.Some? ==> exists k :: FirstAbout(draw, subject, relation, k) && r == Some(draw[k].answer)
  {
    for k := 0 to |draw|
      invariant forall i :: 0 <= i < k ==> !About(draw[i], subject, relation)
    {
      if About(draw[k], subject, relation) {
        assert FirstAbout(draw, subject, relation, k);
        return Some(draw[k].answer);
      }
    }
    return None;
  }

  /* ---- asking ---------------------------------------------------------------- */

  /** `dict.fromkeys`: each pair once, in order of first appearance. */
  function Deduped(pairs: seq<Pair>): seq<Pair> {
    if pairs == [] then []
    else
      var n := |pairs| - 1;
      if pairs[n] in pairs[..n] then Deduped(pairs[..n]) else Deduped(pairs[..n]) + [pairs[n]]
  }

  function WithoutSelf(pairs: seq<Pair>): seq<Pair> {
    if pairs == [] then []
    else
      var n := |pairs| - 1;
      WithoutSelf(pairs[..n]) + (if pairs[n].premise != pairs[n].hypothesis then [pairs[n]] else [])
  }

  function Wanted(pairs: seq<Pair>): seq<Pair> { WithoutSelf(Deduped(pairs)) }

  function Zip(pairs: seq<Pair>, scores: seq<real>): map<Pair, real>
    requires |pairs| == |scores|
  {
    if pairs == [] then map[]
    else var n := |pairs| - 1; Zip(pairs[..n], scores[..n])[pairs[n] := scores[n]]
  }

  predicate InRange(scores: seq<real>) { forall i :: 0 <= i < |scores| ==> 0.0 <= scores[i] <= 1.0 }

  /** `lookup`. The model is not called when nothing is wanted, so its reply is then ignored. */
  function Lookup(pairs: seq<Pair>, reply: seq<real>): Result<map<Pair, real>, Fault> {
    var wanted := Wanted(pairs);
    if wanted == [] then Ok(map[])
    else if !InRange(reply) || |reply| != |wanted| then Err(ValidationRejected)
    else Ok(Zip(wanted, reply))
  }

  /** The callable `_reader` returns: a number that was measured, or an error. */
  function Entail(answers: map<Pair, real>, premise: string, hypothesis: string): Result<real, Fault> {
    if premise == hypothesis then Ok(SELF_ENTAILMENT)
    else if Pair(premise, hypothesis) in answers then Ok(answers[Pair(premise, hypothesis)])
    else Err(KeyError(Pair(premise, hypothesis)))
  }

  /* ---- what was asked is what is answered -------------------------------------- */

  predicate NoRepeats(pairs: seq<Pair>) { forall i, j :: 0 <= i < j < |pairs| ==> pairs[i] != pairs[j] }

  lemma {:induction false} DedupedHoldsEach(pairs: seq<Pair>)
    ensures NoRepeats(Deduped(pairs)) && forall p :: p in Deduped(pairs) <==> p in pairs
  {
    if pairs != [] {
      var n := |pairs| - 1;
      DedupedHoldsEach(pairs[..n]);
      assert forall p :: p in pairs <==> p in pairs[..n] || p == pairs[n];
    }
  }

  lemma {:induction false} WithoutSelfFilters(pairs: seq<Pair>)
    requires NoRepeats(pairs)
    ensures NoRepeats(WithoutSelf(pairs))
    ensures forall p :: p in WithoutSelf(pairs) <==> p in pairs && p.premise != p.hypothesis
  {
    if pairs != [] {
      var n := |pairs| - 1;
      WithoutSelfFilters(pairs[..n]);
      assert forall p :: p in pairs <==> p in pairs[..n] || p == pairs[n];
    }
  }

  lemma WantedIsExact(pairs: seq<Pair>)
    ensures NoRepeats(Wanted(pairs)) && forall p :: p in Wanted(pairs) <==> p in pairs && p.premise != p.hypothesis
  {
    DedupedHoldsEach(pairs);
    WithoutSelfFilters(Deduped(pairs));
  }

  lemma {:induction false} ZipAligns(pairs: seq<Pair>, scores: seq<real>)
    requires |pairs| == |scores| && NoRepeats(pairs)
    ensures forall i :: 0 <= i < |pairs| ==> pairs[i] in Zip(pairs, scores) && Zip(pairs, scores)[pairs[i]] == scores[i]
    ensures forall p :: p in Zip(pairs, scores) <==> p in pairs
  {
    if pairs != [] {
      var n := |pairs| - 1;
      ZipAligns(pairs[..n], scores[..n]);
      assert forall p :: p in pairs <==> p in pairs[..n] || p == pairs[n];
    }
  }

  /** A reply is taken iff it has one number in range for each distinct pair asked. */
  lemma TakenIffOneScoreEach(pairs: seq<Pair>, reply: seq<real>)
    ensures Lookup(pairs, reply).Ok? <==> (Wanted(pairs) == [] || (InRange(reply) && |reply| == |Wanted(pairs)|))
    ensures Lookup(pairs, reply).Ok? && Wanted(pairs) != [] ==>
              forall k :: 0 <= k < |reply| ==>
                Entail(Lookup(pairs, reply).value, Wanted(pairs)[k].premise, Wanted(pairs)[k].hypothesis)
                == Ok(reply[k])
  {
    WantedIsExact(pairs);
    if Wanted(pairs) != [] && InRange(reply) && |reply| == |Wanted(pairs)| {
      ZipAligns(Wanted(pairs), reply);
      forall k | 0 <= k < |reply|
        ensures Entail(Lookup(pairs, reply).value, Wanted(pairs)[k].premise, Wanted(pairs)[k].hypothesis)
             == Ok(reply[k])
      {
        assert Wanted(pairs)[k] in Wanted(pairs);
      }
    }
  }

  /** The callable answers the pairs it was built from and self-pairs, and raises on every other. */
  lemma AnswersWhatWasAsked(pairs: seq<Pair>, reply: seq<real>, premise: string, hypothesis: string)
    requires Lookup(pairs, reply).Ok?
    ensures var asked := Entail(Lookup(pairs, reply).value, premise, hypothesis);
            && (asked.Ok? <==> premise == hypothesis || Pair(premise, hypothesis) in pairs)
            && (premise == hypothesis ==> asked == Ok(1.0))
            && (asked.Err? ==> asked == Err(KeyError(Pair(premise, hypothesis))))
  {
    WantedIsExact(pairs);
    if Wanted(pairs) != [] {
      ZipAligns(Wanted(pairs), reply);
    } else {
      assert Pair(premise, hypothesis) !in Wanted(pairs);
    }
  }

  /* ---- the questions cover the scorer's needs ------------------------------------- */

  lemma {:induction false} BothWaysHolds(left: string, rights: seq<string>, k: nat)
    requires k < |rights|
    ensures Pair(left, rights[k]) in BothWays(left, rights) && Pair(rights[k], left) in BothWays(left, rights)
  {
    if k > 0 { BothWaysHolds(left, rights[1..], k - 1); }
  }

  lemma {:induction false} AllWaysHolds(answers: seq<string>, i: nat, j: nat)
    requires i < j < |answers|
    ensures Pair(answers[i], answers[j]) in AllWays(answers) && Pair(answers[j], answers[i]) in AllWays(answers)
  {
    if i == 0 {
      BothWaysHolds(answers[0], answers[1..], j - 1);
    } else {
      AllWaysHolds(answers[1..], i - 1, j - 1);
    }
  }

  /** Where a draw's answer stands among the answered. */
  function Rank(draws: seq<Option<string>>, i: nat): nat
    requires i < |draws|
  {
    if i == 0 then 0 else (if draws[0].Some? then 1 else 0) + Rank(draws[1..], i - 1)
  }

  lemma {:induction false} RankFindsAnswer(draws: seq<Option<string>>, i: nat)
    requires i < |draws| && draws[i].Some?
    ensures Rank(draws, i) < |Answered(draws)| && Answered(draws)[Rank(draws, i)] == draws[i].value
  {
    if i > 0 { RankFindsAnswer(draws[1..], i - 1); }
  }

  lemma {:induction false} RankRises(draws: seq<Option<string>>, i: nat, j: nat)
    requires i < j < |draws| && draws[i].Some?
    ensures Rank(draws, i) < Rank(draws, j)
  {
    if i > 0 { RankRises(draws[1..], i - 1, j - 1); }
  }

  /** Both directions of any two answered draws are asked, and so is the grounding pair. */
  lemma EveryQuestionIsAsked(draws: seq<Option<string>>, verbatim: string, claim: string, i: nat, j: nat)
    requires i < j < |draws| && draws[i].Some? && draws[j].Some?
    ensures var pairs := EntailPairs(draws, verbatim, claim);
            && Pair(verbatim, claim) in pairs
            && Pair(draws[i].value, draws[j].value) in pairs && Pair(draws[j].value, draws[i].value) in pairs
  {
    RankFindsAnswer(draws, i);
    RankFindsAnswer(draws, j);
    RankRises(draws, i, j);
    AllWaysHolds(Answered(draws), Rank(draws, i), Rank(draws, j));
  }
}
