/** The deterministic risk score: the violations' scores added up and capped
    at 100, and the four bands the score is reported in. */
module Scorer {
  import opened ContractTypes
  import opened Sequences
  import opened JsText
  import IndianLawValidator

  /** The uncapped total of the violations' scores, in list order. */
  function TotalScore(violations: seq<Violation>): int
    decreases |violations|
  {
    if violations == [] then 0
    else TotalScore(violations[..|violations| - 1]) + violations[|violations| - 1].riskScore
  }

  /** `Math.min(totalScore, 100)`. */
  function RiskScore(violations: seq<Violation>): int {
    var total := TotalScore(violations);
    if total < 100 then total else 100
  }

  /** `calculateRiskScore`: add every score in turn, then cap. */
  method CalculateRiskScore(violations: seq<Violation>) returns (score: int)
    ensures score == RiskScore(violations)
    ensures score <= 100
    ensures score == 100 || score == TotalScore(violations)
  {
    var totalScore := 0;
    var i := 0;
    while i < |violations|
      invariant 0 <= i <= |violations|
      invariant totalScore == TotalScore(violations[..i])
    {
      assert violations[..i + 1][..i] == violations[..i];
      totalScore := totalScore + violations[i].riskScore;
      i := i + 1;
    }
    assert violations[..i] == violations;
    score := if totalScore < 100 then totalScore else 100;
  }

  /** `getRiskLevel`: the band a score falls in. */
  function GetRiskLevel(score: int): (level: string)
    ensures level in {"DANGEROUS", "HIGH RISK", "MODERATE RISK", "SAFE"}
  {
    if score >= 76 then "DANGEROUS"
    else if score >= 51 then "HIGH RISK"
    else if score >= 26 then "MODERATE RISK"
    else "SAFE"
  }

  /** How severe a level is, from SAFE (0) to DANGEROUS (3). */
  function Severity(level: string): int {
    if level == "DANGEROUS" then 3
    else if level == "HIGH RISK" then 2
    else if level == "MODERATE RISK" then 1
    else 0
  }

  // ---------------------------------------------------------------------------
  // The score
  // ---------------------------------------------------------------------------

  /** Adding one violation at the end adds its score to the total. */
  lemma TotalAppendOne(violations: seq<Violation>, v: Violation)
    ensures TotalScore(violations + [v]) == TotalScore(violations) + v.riskScore
  {
    assert (violations + [v])[..|violations|] == violations;
  }

  /** The total of two lists one after the other is the sum of their totals,
      so how the violations are grouped does not matter. */
  lemma {:induction false} TotalAppend(a: seq<Violation>, b: seq<Violation>)
    ensures TotalScore(a + b) == TotalScore(a) + TotalScore(b)
    decreases |b|
  {
    if b == [] {
      assert a + b == a;
    } else {
      var init := b[..|b| - 1];
      var last := b[|b| - 1];
      TotalAppend(a, init);
      assert a + b == (a + init) + [last];
      TotalAppendOne(a + init, last);
    }
  }

  /** With no negative scores the total is not negative. */
  lemma {:induction false} TotalNonNegative(violations: seq<Violation>)
    requires forall v :: v in violations ==> v.riskScore >= 0
    ensures TotalScore(violations) >= 0
    decreases |violations|
  {
    if violations != [] {
      var init := violations[..|violations| - 1];
      assert violations[|violations| - 1] in violations;
      assert forall v :: v in init ==> v in violations;
      TotalNonNegative(init);
    }
  }

  /** No violations score 0. */
  lemma EmptyScoresZero()
    ensures RiskScore([]) == 0
    ensures GetRiskLevel(RiskScore([])) == "SAFE"
  {
  }

  /** The score never exceeds 100, and it is not negative when no violation
      scores below 0. */
  lemma ScoreBounds(violations: seq<Violation>)
    ensures RiskScore(violations) <= 100
    ensures (forall v :: v in violations ==> v.riskScore >= 0) ==> 0 <= RiskScore(violations)
  {
    if forall v :: v in violations ==> v.riskScore >= 0 {
      TotalNonNegative(violations);
    }
  }

  /** Reporting one more violation with a non-negative score never lowers the
      score. */
  lemma AppendNeverDecreases(violations: seq<Violation>, v: Violation)
    requires v.riskScore >= 0
    ensures RiskScore(violations) <= RiskScore(violations + [v])
  {
    TotalAppendOne(violations, v);
  }

  // ---------------------------------------------------------------------------
  // The bands
  // ---------------------------------------------------------------------------

  /** Each band is exactly its range of scores. */
  lemma RiskLevelBands(score: int)
    ensures GetRiskLevel(score) == "DANGEROUS" <==> score >= 76
    ensures GetRiskLevel(score) == "HIGH RISK" <==> 51 <= score < 76
    ensures GetRiskLevel(score) == "MODERATE RISK" <==> 26 <= score < 51
    ensures GetRiskLevel(score) == "SAFE" <==> score < 26
  {
  }

  /** A higher score never gives a less severe level. */
  lemma RiskLevelMonotone(lower: int, higher: int)
    requires lower <= higher
    ensures Severity(GetRiskLevel(lower)) <= Severity(GetRiskLevel(higher))
  {
  }

  /** Without database patterns, a single clause caught by the non-compete
      pattern scores 40, which is a moderate risk. */
  lemma SingleNonCompeteIsModerate(clause: Clause, a: string, b: string)
    requires a in IndianLawValidator.KeywordsOf(IndianLawValidator.NonCompete())
    requires b in IndianLawValidator.KeywordsOf(IndianLawValidator.NonCompete())
    requires a != b
    requires Includes(Lower(clause.text), Lower(a)) && Includes(Lower(clause.text), Lower(b))
    ensures RiskScore(IndianLawValidator.Violations([clause], IndianLawValidator.ActivePatterns(IndianLawValidator.LoadFailed))) == 40
    ensures GetRiskLevel(RiskScore(IndianLawValidator.Violations([clause], IndianLawValidator.ActivePatterns(IndianLawValidator.LoadFailed)))) == "MODERATE RISK"
  {
    var ps := IndianLawValidator.ActivePatterns(IndianLawValidator.LoadFailed);
    var vs := IndianLawValidator.Violations([clause], ps);
    assert |vs| == 1 && vs[0].riskScore == 40 by {
      IndianLawValidator.NonCompeteIsCaught(clause, a, b);
      FlatMapOne(clause, IndianLawValidator.ClauseViolationIn(ps));
    }
    OneViolationScore(vs);
  }

  /** A single violation scores its own score, capped at 100. */
  lemma OneViolationScore(violations: seq<Violation>)
    requires |violations| == 1
    ensures RiskScore(violations) == if violations[0].riskScore < 100 then violations[0].riskScore else 100
  {
    assert violations[..|violations| - 1] == [];
    assert TotalScore(violations) == violations[0].riskScore;
  }
}
