/** The statutory pattern matcher: each clause is checked against the clause
    patterns in list order, and the first pattern with at least two keyword
    hits in the lower-cased clause text yields that clause's only violation.
    The patterns come from the database; when that list is empty or could not
    be loaded, five built-in patterns are used instead. */
module IndianLawValidator {
  import opened JsText
  import opened Wrappers
  import opened ContractTypes
  import opened Constants
  import opened Sequences

  /** A pattern's keyword payload: a list, or a JSON text that `JSON.parse`
      rejected. A JSON text that parses is represented by its list. */
  datatype Keywords = Words(words: seq<string>) | Malformed

  /** One clause pattern. An empty string stands for a column that is empty
      or missing, both of which `||` treats as false. */
  datatype Pattern = Pattern(
    clauseType: string,
    keywords: Keywords,
    riskLevel: RiskLevel,
    riskScore: int,
    sectionNumber: string,
    linkedSection: string,
    sectionTitle: string,
    fullText: string,
    description: string,
    govUrl: string)

  /** The outcome of reading the patterns from the database. */
  datatype PatternLoad = Loaded(patterns: seq<Pattern>) | LoadFailed

  function DefaultSectionTitle(): string {
    "Indian Contract Act"
  }

  function NonCompete(): Pattern {
    Pattern(
      "non_compete_section27",
      Words(["non-compete", "non compete", "shall not compete", "restraint of trade", "not engage in similar", ("cannot work " + "for competitor")]),
      Critical, 40, "Section 27", "",
      "Agreement in " + "restraint of " + "trade void",
      "Every " + "agreement by " + "which any one " +
      "is restrained " + "from " + "exercising a " +
      "lawful " + "profession, " + "trade or " +
      "business of " + "any kind, is " + "to that " +
      "extent void.",
      "Non-compete " + "clause " + "restricting " +
      "freelancer " + "from taking " + "other work",
      IndianContractActUrl())
  }

  function UnlimitedLiability(): Pattern {
    Pattern(
      "unlimited_" + "liability_" + "section73",
      Words(["unlimited liability", "all damages", "consequential damages", "indirect damages", "liable for all losses", "without limitation"]),
      High, 25, "Section 73", "",
      "Compensation " + "for loss or " + "damage caused " +
      "by breach of " + "contract",
      "When a " + "contract has " + "been broken, " +
      "the party who " + "suffers by " + "such breach " +
      "is entitled " + "to receive, " + "from the " +
      "party who has " + "broken the " + "contract, " +
      "compensation " + "for any loss " + "or damage " +
      "caused to him " + "thereby.",
      "Freelancer " + "liable for " + "unlimited " +
      "damages " + "without " + "reasonable cap",
      IndianContractActUrl())
  }

  function ExcessivePenalty(): Pattern {
    Pattern(
      "excessive_" + "penalty_" + "section74",
      Words(["penalty of", "liquidated damages", "shall pay", "penalty equal to", "forfeit", "breach penalty"]),
      High, 20, "Section 74", "",
      "Compensation " + "for breach of " + "contract " +
      "where penalty " + "stipulated for",
      "When a " + "contract has " + "been broken, " +
      "if a sum is " + "named in the " + "contract as " +
      "the amount to " + "be paid in " + "case of such " +
      "breach, the " + "party " + "complaining " +
      "of the breach " + "is entitled, " + "whether or " +
      "not actual " + "damage or " + "loss is " +
      "proved to " + "have been " + "caused " +
      "thereby, to " + "receive from " + "the party who " +
      "has broken " + "the contract " + "reasonable " +
      "compensation.",
      "Excessive " + "penalty that " + "exceeds " +
      "reasonable " + "compensation " + "for breach",
      IndianContractActUrl())
  }

  function UnilateralTermination(): Pattern {
    Pattern(
      "unilateral_termination",
      Words(["terminate at will", "without cause", "immediate termination", ("terminate " + "without notice"), "at sole discretion", "cancel anytime"]),
      Medium, 15, "Section 10", "",
      "What " + "agreements " + "are contracts",
      "All " + "agreements " + "are contracts " +
      "if they are " + "made by the " + "free consent " +
      "of parties " + "competent to " + "contract, for " +
      "a lawful " + "consideration " + "and with a " +
      "lawful object.",
      "Client can " + "terminate " + "without " +
      "reason or " + "notice period",
      IndianContractActUrl())
  }

  function ForeignJurisdiction(): Pattern {
    Pattern(
      "foreign_jurisdiction",
      Words(["governed by laws of", "jurisdiction of", "courts of USA", "UK jurisdiction", "Singapore courts", "Delaware", "California law"]),
      Medium, 12, "Section 10", "",
      "What " + "agreements " + "are contracts",
      "All " + "agreements " + "are contracts " +
      "if they are " + "made by the " + "free consent " +
      "of parties " + "competent to " + "contract, for " +
      "a lawful " + "consideration " + "and with a " +
      "lawful object.",
      "Disputes must " + "be resolved " + "in foreign " +
      "jurisdiction " + "(expensive " + "for " +
      "freelancer)",
      IndianContractActUrl())
  }

  /** The `i`-th built-in pattern. */
  function FallbackPattern(i: nat): Pattern
    requires i < 5
  {
    match i
    case 0 => NonCompete()
    case 1 => UnlimitedLiability()
    case 2 => ExcessivePenalty()
    case 3 => UnilateralTermination()
    case _ => ForeignJurisdiction()
  }

  /** The built-in patterns, in the order they are tried. */
  function FallbackPatterns(): (r: seq<Pattern>)
    ensures |r| == 5
  {
    seq(5, i requires 0 <= i < 5 => FallbackPattern(i))
  }

  /** The patterns the matcher uses: the loaded list when it has any pattern,
      the built-in list otherwise; the two are never merged. */
  function ActivePatterns(load: PatternLoad): (r: seq<Pattern>)
    ensures |r| > 0
    ensures load.Loaded? && load.patterns != [] ==> r == load.patterns
    ensures load.LoadFailed? || load.patterns == [] ==> r == FallbackPatterns()
  {
    match load
    case Loaded(ps) => if ps == [] then FallbackPatterns() else ps
    case LoadFailed => FallbackPatterns()
  }

  /** The keyword list a pattern is matched with: a payload that does not
      parse counts as no keywords. */
  function KeywordsOf(p: Pattern): seq<string> {
    match p.keywords
    case Words(ws) => ws
    case Malformed => []
  }

  /** The filter test: the keyword, lower-cased, occurs in the text. */
  function Hits(lowerText: string): string -> bool {
    kw => IncludesLowered(lowerText, kw)
  }

  /** `keywords.filter(kw => lowerText.includes(kw.toLowerCase()))` */
  function MatchedKeywords(lowerText: string, keywords: seq<string>): (r: seq<string>)
    ensures |r| <= |keywords|
  {
    Filter(keywords, Hits(lowerText))
  }

  /** A pattern fires on a clause when two or more of its keywords occur. */
  predicate Fires(p: Pattern, lowerText: string) {
    |MatchedKeywords(lowerText, KeywordsOf(p))| >= 2
  }

  function FiresOn(lowerText: string): Pattern -> bool {
    p => Fires(p, lowerText)
  }

  /** The first pattern in list order that fires. */
  function FirstFiring(patterns: seq<Pattern>, lowerText: string): (r: Option<Pattern>)
    ensures r.Some? ==> r.value in patterns && Fires(r.value, lowerText)
  {
    FirstWhere(patterns, FiresOn(lowerText))
  }

  /** The violation a firing pattern reports for a clause. */
  function ViolationFor(clause: Clause, p: Pattern, matched: seq<string>): Violation {
    Violation(
      clause.id,
      clause.text,
      p.clauseType,
      OrElse(p.sectionNumber, p.linkedSection),
      OrElse(p.sectionTitle, DefaultSectionTitle()),
      OrElse(p.fullText, p.description),
      p.riskLevel,
      p.riskScore,
      matched,
      p.description,
      OrElse(p.govUrl, IndianContractActUrl()))
  }

  /** What one clause contributes: the violation of its first firing pattern,
      if any. */
  function ClauseViolation(clause: Clause, patterns: seq<Pattern>): seq<Violation> {
    var lowerText := Lower(clause.text);
    match FirstFiring(patterns, lowerText)
    case Some(p) => [ViolationFor(clause, p, MatchedKeywords(lowerText, KeywordsOf(p)))]
    case None => []
  }

  function ClauseViolationIn(patterns: seq<Pattern>): Clause -> seq<Violation> {
    c => ClauseViolation(c, patterns)
  }

  /** All violations, clause by clause. */
  function Violations(clauses: seq<Clause>, patterns: seq<Pattern>): seq<Violation> {
    FlatMap(clauses, ClauseViolationIn(patterns))
  }

  // ---------------------------------------------------------------------------
  // validateAgainstIndianLaw
  // ---------------------------------------------------------------------------

  /** The two nested loops: for each clause, scan the patterns until one
      fires, push its violation and stop scanning. */
  method ValidateAgainstIndianLaw(clauses: seq<Clause>, load: PatternLoad) returns (violations: seq<Violation>)
    ensures violations == Violations(clauses, ActivePatterns(load))
  {
    violations := [];
    var patterns: seq<Pattern> := [];
    match load {
      case Loaded(ps) => patterns := ps;
      case LoadFailed =>
    }
    if patterns == [] {
      patterns := FallbackPatterns();
    }

    violations := CheckClauses(clauses, patterns);
  }

  /** The two nested loops of `validateAgainstIndianLaw` over a pattern list. */
  method CheckClauses(clauses: seq<Clause>, patterns: seq<Pattern>) returns (violations: seq<Violation>)
    ensures violations == Violations(clauses, patterns)
  {
    ghost var f := ClauseViolationIn(patterns);
    violations := [];
    var i := 0;
    while i < |clauses|
      invariant 0 <= i <= |clauses|
      invariant violations == FlatMap(clauses[..i], f)
    {
      var found := CheckClause(clauses[i], patterns);
      assert found == f(clauses[i]);
      FlatMapStep(clauses, f, i);
      violations := violations + found;
      i := i + 1;
    }
    assert clauses[..|clauses|] == clauses;
  }

  /** The inner loop: scan the patterns until one fires, report it and stop
      scanning. */
  method CheckClause(clause: Clause, patterns: seq<Pattern>) returns (violations: seq<Violation>)
    ensures violations == ClauseViolation(clause, patterns)
  {
    var lowerText := Lower(clause.text);
    var j := 0;
    while j < |patterns|
      invariant 0 <= j <= |patterns|
      invariant FirstFiring(patterns, lowerText) == FirstFiring(patterns[j..], lowerText)
    {
      var pattern := patterns[j];
      var keywords: seq<string>;
      match pattern.keywords {
        case Words(ws) => keywords := ws;
        case Malformed => keywords := [];
      }
      var matchedKeywords := MatchedKeywords(lowerText, keywords);
      if |matchedKeywords| >= 2 {
        ClauseViolationFound(clause, patterns, j);
        return [ViolationFor(clause, pattern, matchedKeywords)];
      }
      FirstFiringStep(patterns, lowerText, j);
      j := j + 1;
    }
    ClauseViolationNotFound(clause, patterns);
    return [];
  }

  /** The inner loop stops at the first pattern that fires. */
  lemma ClauseViolationFound(clause: Clause, patterns: seq<Pattern>, j: nat)
    requires j < |patterns|
    requires FirstFiring(patterns, Lower(clause.text)) == FirstFiring(patterns[j..], Lower(clause.text))
    requires Fires(patterns[j], Lower(clause.text))
    ensures ClauseViolation(clause, patterns) ==
      [ViolationFor(clause, patterns[j], MatchedKeywords(Lower(clause.text), KeywordsOf(patterns[j])))]
  {
    FirstFiringStep(patterns, Lower(clause.text), j);
  }

  /** A first pattern that fires is the one reported. */
  lemma FirstPatternFires(clause: Clause, patterns: seq<Pattern>)
    requires patterns != [] && Fires(patterns[0], Lower(clause.text))
    ensures ClauseViolation(clause, patterns) ==
      [ViolationFor(clause, patterns[0], MatchedKeywords(Lower(clause.text), KeywordsOf(patterns[0])))]
  {
    assert patterns[0..] == patterns;
    ClauseViolationFound(clause, patterns, 0);
  }

  /** The inner loop runs out of patterns when none fires. */
  lemma ClauseViolationNotFound(clause: Clause, patterns: seq<Pattern>)
    requires FirstFiring(patterns, Lower(clause.text)) == FirstFiring(patterns[|patterns|..], Lower(clause.text))
    ensures ClauseViolation(clause, patterns) == []
  {
    assert patterns[|patterns|..] == [];
  }

  /** The inner loop's step. */
  lemma FirstFiringStep(patterns: seq<Pattern>, lowerText: string, j: nat)
    requires j < |patterns|
    ensures FirstFiring(patterns[j..], lowerText) ==
      if Fires(patterns[j], lowerText) then Some(patterns[j]) else FirstFiring(patterns[j + 1..], lowerText)
  {
    FirstWhereStep(patterns, FiresOn(lowerText), j);
  }

  // ---------------------------------------------------------------------------
  // Properties
  // ---------------------------------------------------------------------------

  /** The matched keywords are exactly the pattern's keywords whose lower-case
      form occurs in the lower-cased text, and they keep the pattern's order. */
  lemma MatchedKeywordsAreHits(lowerText: string, keywords: seq<string>)
    ensures forall kw :: kw in MatchedKeywords(lowerText, keywords) <==>
      kw in keywords && Includes(lowerText, Lower(kw))
    ensures IsSubsequence(MatchedKeywords(lowerText, keywords), keywords)
  {
    FilterMembers(keywords, Hits(lowerText));
    FilterKeepsOrder(keywords, Hits(lowerText));
    forall kw ensures IncludesLowered(lowerText, kw) <==> Includes(lowerText, Lower(kw)) {
      IncludesLoweredIsIncludes(lowerText, kw);
    }
  }

  /** First fit: a pattern that fires after only patterns that do not is the
      one reported ... */
  lemma FirstFitReported(patterns: seq<Pattern>, lowerText: string, j: nat)
    requires j < |patterns| && Fires(patterns[j], lowerText)
    requires forall q :: 0 <= q < j ==> !Fires(patterns[q], lowerText)
    ensures FirstFiring(patterns, lowerText) == Some(patterns[j])
  {
    FirstWhereFindsFirst(patterns, FiresOn(lowerText), j);
  }

  /** ... a reported pattern fires and is preceded only by patterns that do
      not ... */
  lemma ReportedIsFirstFit(patterns: seq<Pattern>, lowerText: string)
    ensures FirstFiring(patterns, lowerText).Some? ==>
      exists j :: 0 <= j < |patterns| && patterns[j] == FirstFiring(patterns, lowerText).value &&
        Fires(patterns[j], lowerText) &&
        forall q :: 0 <= q < j ==> !Fires(patterns[q], lowerText)
  {
    FirstWhereHasNoEarlier(patterns, FiresOn(lowerText));
  }

  /** ... and nothing is reported exactly when no pattern fires. */
  lemma NoneFiring(patterns: seq<Pattern>, lowerText: string)
    ensures FirstFiring(patterns, lowerText).None? <==>
      forall q :: 0 <= q < |patterns| ==> !Fires(patterns[q], lowerText)
  {
    FirstWhereNone(patterns, FiresOn(lowerText));
  }

  /** A pattern whose keyword payload does not parse never fires, so removing
      it from the list changes no clause's result. */
  lemma MalformedPatternIsSkipped(patterns: seq<Pattern>, j: nat, clause: Clause)
    requires j < |patterns| && patterns[j].keywords.Malformed?
    ensures ClauseViolation(clause, patterns[..j] + patterns[j + 1..]) == ClauseViolation(clause, patterns)
  {
    var lowerText := Lower(clause.text);
    assert !FiresOn(lowerText)(patterns[j]);
    FirstWhereSkips(patterns, FiresOn(lowerText), j);
  }

  /** Each clause yields at most one violation, built from the clause and its
      first firing pattern: the clause's id and text, the pattern's type,
      level, score and description, its matched keywords (at least two), and
      the fixed defaults for a missing section title and link. */
  lemma ClauseViolationShape(clause: Clause, patterns: seq<Pattern>)
    ensures |ClauseViolation(clause, patterns)| <= 1
    ensures ClauseViolation(clause, patterns) != [] <==> FirstFiring(patterns, Lower(clause.text)).Some?
    ensures ClauseViolation(clause, patterns) != [] ==>
      var v := ClauseViolation(clause, patterns)[0];
      var p := FirstFiring(patterns, Lower(clause.text)).value;
      v.clauseId == clause.id && v.clauseText == clause.text &&
      v.violationType == p.clauseType && v.riskLevel == p.riskLevel &&
      v.riskScore == p.riskScore && v.explanation == p.description &&
      v.matchedKeywords == MatchedKeywords(Lower(clause.text), KeywordsOf(p)) &&
      |v.matchedKeywords| >= 2 &&
      v.sectionTitle == (if p.sectionTitle == [] then DefaultSectionTitle() else p.sectionTitle) &&
      v.govUrl == (if p.govUrl == [] then IndianContractActUrl() else p.govUrl)
  {
    var lowerText := Lower(clause.text);
    var found := FirstFiring(patterns, lowerText);
    if found.Some? {
      var p := found.value;
      assert Fires(p, lowerText);
      assert ClauseViolation(clause, patterns) == [ViolationFor(clause, p, MatchedKeywords(lowerText, KeywordsOf(p)))];
    }
  }

  /** Violations of consecutive clause lists are concatenated, so violations
      keep clause order. */
  lemma ViolationsAppend(a: seq<Clause>, b: seq<Clause>, patterns: seq<Pattern>)
    ensures Violations(a + b, patterns) == Violations(a, patterns) + Violations(b, patterns)
  {
    FlatMapAppend(a, b, ClauseViolationIn(patterns));
  }

  /** No clause yields more than one violation. */
  lemma AtMostOnePerClause(clauses: seq<Clause>, patterns: seq<Pattern>)
    ensures |Violations(clauses, patterns)| <= |clauses|
  {
    forall c | c in clauses ensures |ClauseViolationIn(patterns)(c)| <= 1 {
      ClauseViolationShape(c, patterns);
    }
    FlatMapAtMostOne(clauses, ClauseViolationIn(patterns));
  }

  /** For clauses with increasing ids, the violations' clause ids increase
      too: violations come in clause order and no clause is reported twice. */
  lemma ViolationsInClauseOrder(clauses: seq<Clause>, patterns: seq<Pattern>)
    requires forall i, j :: 0 <= i < j < |clauses| ==> clauses[i].id < clauses[j].id
    ensures forall v :: v in Violations(clauses, patterns) ==> exists c :: c in clauses && v.clauseId == c.id
    ensures forall x, y :: 0 <= x < y < |Violations(clauses, patterns)| ==>
      Violations(clauses, patterns)[x].clauseId < Violations(clauses, patterns)[y].clauseId
  {
    forall c | c in clauses
      ensures |ClauseViolationIn(patterns)(c)| <= 1
      ensures forall v :: v in ClauseViolationIn(patterns)(c) ==> v.clauseId == c.id
    {
      ClauseViolationShape(c, patterns);
    }
    FlatMapKeysIncrease(clauses, ClauseViolationIn(patterns), (c: Clause) => c.id, (v: Violation) => v.clauseId);
  }

  /** No clauses, no violations. */
  lemma NoClausesNoViolations(load: PatternLoad)
    ensures Violations([], ActivePatterns(load)) == []
  {
  }

  /** A pattern fires on a text holding two of its distinct keywords. */
  lemma TwoHitsFire(p: Pattern, lowerText: string, a: string, b: string)
    requires a in KeywordsOf(p) && b in KeywordsOf(p) && a != b
    requires Includes(lowerText, Lower(a)) && Includes(lowerText, Lower(b))
    ensures Fires(p, lowerText)
  {
    var hits := MatchedKeywords(lowerText, KeywordsOf(p));
    IncludesLoweredIsIncludes(lowerText, a);
    IncludesLoweredIsIncludes(lowerText, b);
    FilterMembers(KeywordsOf(p), Hits(lowerText));
    assert a in hits && b in hits;
  }

  /** Without database patterns, a clause holding two of the non-compete
      keywords is reported under Section 27 as a critical violation scoring
      40, whatever other patterns it also matches: that pattern comes first. */
  lemma NonCompeteIsCaught(clause: Clause, a: string, b: string)
    requires a in KeywordsOf(NonCompete()) && b in KeywordsOf(NonCompete()) && a != b
    requires Includes(Lower(clause.text), Lower(a)) && Includes(Lower(clause.text), Lower(b))
    ensures |ClauseViolation(clause, ActivePatterns(LoadFailed))| == 1
    ensures ClauseViolation(clause, ActivePatterns(LoadFailed))[0].violationType == "non_compete_section27"
    ensures ClauseViolation(clause, ActivePatterns(LoadFailed))[0].sectionNumber == "Section 27"
    ensures ClauseViolation(clause, ActivePatterns(LoadFailed))[0].riskLevel == Critical
    ensures ClauseViolation(clause, ActivePatterns(LoadFailed))[0].riskScore == 40
  {
    var ps := ActivePatterns(LoadFailed);
    TwoHitsFire(ps[0], Lower(clause.text), a, b);
    FirstPatternFires(clause, ps);
  }
}
