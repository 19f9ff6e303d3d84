/** The analysis endpoint: reject a bad upload, then run the pipeline
    (segment, validate, compare with the baselines, score), place every
    violation in the extracted text, explain it, and assemble the report.

    Text extraction and the explanation service are outside the model: the
    extracted text (or what extraction threw) and the explainer's answer for
    each violation (or its failure) are parameters. */
module AnalyzeRoute {
  import opened Wrappers
  import opened JsText
  import opened ContractTypes
  import opened Constants
  import opened Sequences
  import Parser
  import IndianLawValidator
  import DeviationChecker
  import Scorer

  /** The uploaded form field `file`. */
  datatype Upload = Upload(name: string, fileType: string, size: int)

  /** What a `throw` carried: an `Error` with its message, or anything else. */
  datatype Thrown = ErrorObject(message: string) | OtherValue

  /** The explainer's two texts for one violation. */
  datatype Explanation = Explanation(simpleExplanation: string, realLifeImpact: string)

  datatype LawReference = LawReference(section: string, title: string, fullText: string, summary: string, url: string)

  datatype ExplanationBlock = ExplanationBlock(simple: string, realLifeImpact: string, generatedBy: string)

  /** One explained violation, placed in the extracted text. */
  datatype RiskyClause = RiskyClause(
    id: int,
    clauseNumber: int,
    originalText: string,
    violationType: string,
    riskLevel: RiskLevel,
    riskScore: int,
    startIndex: int,
    endIndex: int,
    appliesTo: seq<string>,
    businessRisk: string,
    indianLawReference: LawReference,
    explanation: ExplanationBlock,
    matchedKeywords: seq<string>)

  datatype Breakdown = Breakdown(critical: nat, high: nat, medium: nat, low: nat)

  datatype Analysis = Analysis(
    overallRiskScore: int,
    riskLevel: string,
    totalClauses: nat,
    riskyClausesFound: nat,
    deviationsFromFairContract: nat,
    breakdown: Breakdown)

  datatype Document = Document(fileName: string, fileSize: int, fileType: string, extractedText: string)

  datatype Report = Report(
    document: Document,
    analysis: Analysis,
    riskyClauses: seq<RiskyClause>,
    deviations: seq<Deviation>,
    disclaimer: string)

  /** The JSON reply: the report, or `{ success: false, error }` with a status. */
  datatype Reply = Ok(report: Report) | Rejected(status: nat, error: string)

  // ---------------------------------------------------------------------------
  // Upload validation
  // ---------------------------------------------------------------------------

  function NoFileMessage(): string { "No file uploaded" }

  function FileTypeMessage(): string {
    "Only PDF, " + "DOCX, TXT, " + "PNG, JPG " + "files allowed"
  }

  function FileSizeMessage(): string { "File must be " + "under 10MB" }

  /** The three checks before any analysis, in order. */
  function ValidateUpload(file: Option<Upload>): Result<Upload, Reply> {
    match file
    case None => Failure(Rejected(400, NoFileMessage()))
    case Some(f) =>
      if f.fileType !in AllowedFileTypes() then Failure(Rejected(400, FileTypeMessage()))
      else if f.size > MAX_FILE_SIZE then Failure(Rejected(400, FileSizeMessage()))
      else Success(f)
  }

  /** An upload is accepted exactly when there is a file of an allowed type
      of at most 10 MiB, and each rejection has status 400 and names the
      first check that failed. */
  lemma UploadAcceptedIff(file: Option<Upload>)
    ensures ValidateUpload(file).Success? <==>
      file.Some? && file.value.fileType in AllowedFileTypes() && file.value.size <= 10 * 1024 * 1024
    ensures ValidateUpload(file).Success? ==> ValidateUpload(file).value == file.value
    ensures ValidateUpload(file).Failure? ==> ValidateUpload(file).error.Rejected? && ValidateUpload(file).error.status == 400
    ensures file.None? ==> ValidateUpload(file).error.error == NoFileMessage()
    ensures file.Some? && file.value.fileType !in AllowedFileTypes() ==>
      ValidateUpload(file).error.error == FileTypeMessage()
    ensures file.Some? && file.value.fileType in AllowedFileTypes() && file.value.size > 10 * 1024 * 1024 ==>
      ValidateUpload(file).error.error == FileSizeMessage()
  {
  }

  // ---------------------------------------------------------------------------
  // Placing a violation in the text
  // ---------------------------------------------------------------------------

  /** `clauseTextLower.substring(0, 50)` */
  function Prefix50(s: string): (r: string)
    ensures r <= s && |r| <= 50
    ensures |r| == if |s| <= 50 then |s| else 50
  {
    if |s| <= 50 then s else s[..50]
  }

  /** The fallback guess for the violation ranked `index` among `count`:
      that share of the text length. */
  function Estimate(index: nat, length: nat, count: nat): (r: nat)
    ensures index < count ==> r <= length
  {
    var n := if count > 1 then count else 1;
    EstimateBound(index, length, n);
    index * length / n
  }

  lemma EstimateBound(index: nat, length: nat, n: nat)
    requires n > 0
    ensures 0 <= index * length / n
    ensures index < n ==> index * length / n <= length
  {
    if index < n {
      assert index * length <= n * length;
    }
  }

  /** Where the search puts the clause before clamping: its first
      case-insensitive occurrence, else the first occurrence of its first 50
      characters, else an estimate from its rank among the violations. */
  function FoundStart(text: string, clauseText: string, index: nat, count: nat): int {
    var textLower := Lower(text);
    var clauseLower := Lower(clauseText);
    var full := IndexOf(textLower, clauseLower);
    if full != -1 then full
    else
      var prefix := IndexOf(textLower, Prefix50(clauseLower));
      if prefix != -1 then prefix
      else Estimate(index, |text|, count)
  }

  /** The clamped `startIndex`. */
  function StartOf(text: string, clauseText: string, index: nat, count: nat): int {
    var s := FoundStart(text, clauseText, index, count);
    if s > 0 then s else 0
  }

  /** The clamped `endIndex`. */
  function EndOf(text: string, clauseText: string, index: nat, count: nat): int {
    var s := FoundStart(text, clauseText, index, count);
    var e := if s >= 0 then s + |clauseText| else s + 100;
    if |text| < e then |text| else e
  }

  /** The reconciliation steps, reassigning `startIndex` as each search fails. */
  method LocateClause(text: string, clauseText: string, index: nat, count: nat)
    returns (startIndex: int, endIndex: int)
    ensures startIndex == StartOf(text, clauseText, index, count)
    ensures endIndex == EndOf(text, clauseText, index, count)
  {
    var clauseTextLower := Lower(clauseText);
    var textLower := Lower(text);
    var start := IndexOf(textLower, clauseTextLower);
    if start == -1 {
      var searchText := Prefix50(clauseTextLower);
      start := IndexOf(textLower, searchText);
    }
    if start == -1 {
      start := Estimate(index, |text|, count);
    }
    var end := if start >= 0 then start + |clauseText| else start + 100;
    startIndex := if start > 0 then start else 0;
    endIndex := if |text| < end then |text| else end;
  }

  /** For a violation among `count`, the range lies inside the text and is
      never reversed. */
  lemma RangeInsideText(text: string, clauseText: string, index: nat, count: nat)
    requires index < count
    ensures 0 <= StartOf(text, clauseText, index, count)
    ensures StartOf(text, clauseText, index, count) <= EndOf(text, clauseText, index, count) <= |text|
  {
  }

  /** When the whole clause occurs (ignoring case), the range is its first
      occurrence: it starts there, nothing earlier matches, and it covers the
      clause exactly. */
  lemma FoundClauseIsCovered(text: string, clauseText: string, index: nat, count: nat)
    requires Includes(Lower(text), Lower(clauseText))
    ensures var s := StartOf(text, clauseText, index, count);
      s == EndOf(text, clauseText, index, count) - |clauseText| &&
      OccursAt(Lower(text), Lower(clauseText), s) &&
      forall q :: 0 <= q < s ==> !OccursAt(Lower(text), Lower(clauseText), q)
  {
    IndexOfIsFirst(Lower(text), Lower(clauseText));
  }

  /** When the whole clause does not occur but its first 50 characters do,
      the range starts at their first occurrence. */
  lemma PrefixFallback(text: string, clauseText: string, index: nat, count: nat)
    requires !Includes(Lower(text), Lower(clauseText))
    requires Includes(Lower(text), Prefix50(Lower(clauseText)))
    ensures var s := StartOf(text, clauseText, index, count);
      OccursAt(Lower(text), Prefix50(Lower(clauseText)), s) &&
      forall q :: 0 <= q < s ==> !OccursAt(Lower(text), Prefix50(Lower(clauseText)), q)
  {
    IndexOfIsFirst(Lower(text), Prefix50(Lower(clauseText)));
  }

  /** When neither search succeeds, the start is the violation's share of the
      text length. */
  lemma EstimateFallback(text: string, clauseText: string, index: nat, count: nat)
    requires !Includes(Lower(text), Lower(clauseText))
    requires !Includes(Lower(text), Prefix50(Lower(clauseText)))
    ensures StartOf(text, clauseText, index, count) == Estimate(index, |text|, count)
    ensures index < count ==> StartOf(text, clauseText, index, count) <= |text|
  {
  }

  // ---------------------------------------------------------------------------
  // Explaining the violations
  // ---------------------------------------------------------------------------

  function FallbackImpact(): string {
    "This clause " + "may put you at " + "a significant " +
    "disadvantage. " + "Consider " + "negotiating " + "better terms."
  }

  function GeneratedBy(): string { "gemini-1.5-" + "flash" }

  /** The explanation texts: the explainer's answer, or when it throws, the
      violation's own explanation and the fixed impact text. */
  function ExplanationTexts(v: Violation, answer: Option<Explanation>): Explanation {
    match answer
    case Some(e) => e
    case None => Explanation(v.explanation, FallbackImpact())
  }

  /** The `map` callback for violation `i`. */
  function RiskyClauseFor(text: string, violations: seq<Violation>, i: nat, explain: Violation -> Option<Explanation>): RiskyClause
    requires i < |violations|
  {
    var v := violations[i];
    var e := ExplanationTexts(v, explain(v));
    RiskyClause(
      i + 1,
      v.clauseId,
      v.clauseText,
      v.violationType,
      v.riskLevel,
      v.riskScore,
      StartOf(text, v.clauseText, i, |violations|),
      EndOf(text, v.clauseText, i, |violations|),
      ["All"],
      "Contract Risk",
      LawReference(v.sectionNumber, v.sectionTitle, v.sectionFullText, v.explanation, v.govUrl),
      ExplanationBlock(e.simpleExplanation, e.realLifeImpact, GeneratedBy()),
      v.matchedKeywords)
  }

  /** `violations.map(...)`: every violation explained and placed. */
  method ExplainViolations(text: string, violations: seq<Violation>, explain: Violation -> Option<Explanation>)
    returns (riskyClauses: seq<RiskyClause>)
    ensures |riskyClauses| == |violations|
    ensures forall i :: 0 <= i < |violations| ==> riskyClauses[i] == RiskyClauseFor(text, violations, i, explain)
  {
    riskyClauses := [];
    var index := 0;
    while index < |violations|
      invariant 0 <= index <= |violations|
      invariant |riskyClauses| == index
      invariant forall i :: 0 <= i < index ==> riskyClauses[i] == RiskyClauseFor(text, violations, i, explain)
    {
      var violation := violations[index];
      var simpleExplanation := "";
      var realLifeImpact := "";
      match explain(violation) {
        case Some(explained) =>
          simpleExplanation := explained.simpleExplanation;
          realLifeImpact := explained.realLifeImpact;
        case None =>
          simpleExplanation := violation.explanation;
          realLifeImpact := FallbackImpact();
      }
      var startIndex, endIndex := LocateClause(text, violation.clauseText, index, |violations|);
      var riskyClause := RiskyClause(
        index + 1,
        violation.clauseId,
        violation.clauseText,
        violation.violationType,
        violation.riskLevel,
        violation.riskScore,
        startIndex,
        endIndex,
        ["All"],
        "Contract Risk",
        LawReference(violation.sectionNumber, violation.sectionTitle, violation.sectionFullText,
          violation.explanation, violation.govUrl),
        ExplanationBlock(simpleExplanation, realLifeImpact, GeneratedBy()),
        violation.matchedKeywords);
      assert riskyClause == RiskyClauseFor(text, violations, index, explain);
      riskyClauses := riskyClauses + [riskyClause];
      index := index + 1;
    }
  }

  /** Each explained violation keeps its violation's facts, is numbered from
      1 in order, and is placed inside the text; when the explainer fails, it
      falls back to the violation's explanation and the fixed impact text. */
  lemma ExplainedViolation(text: string, violations: seq<Violation>, i: nat, explain: Violation -> Option<Explanation>)
    requires i < |violations|
    ensures var r := RiskyClauseFor(text, violations, i, explain);
      r.id == i + 1 && r.clauseNumber == violations[i].clauseId &&
      r.originalText == violations[i].clauseText &&
      r.riskLevel == violations[i].riskLevel && r.riskScore == violations[i].riskScore &&
      0 <= r.startIndex <= r.endIndex <= |text|
    ensures explain(violations[i]).None? ==>
      RiskyClauseFor(text, violations, i, explain).explanation.simple == violations[i].explanation &&
      RiskyClauseFor(text, violations, i, explain).explanation.realLifeImpact == FallbackImpact()
    ensures explain(violations[i]).Some? ==>
      RiskyClauseFor(text, violations, i, explain).explanation.simple == explain(violations[i]).value.simpleExplanation
  {
    RangeInsideText(text, violations[i].clauseText, i, |violations|);
  }

  // ---------------------------------------------------------------------------
  // The breakdown
  // ---------------------------------------------------------------------------

  function HasLevel(level: RiskLevel): Violation -> bool {
    (v: Violation) => v.riskLevel == level
  }

  /** `violations.filter(v => v.riskLevel === level).length` */
  function CountLevel(violations: seq<Violation>, level: RiskLevel): nat {
    |Filter(violations, HasLevel(level))|
  }

  function BreakdownOf(violations: seq<Violation>): Breakdown {
    Breakdown(
      CountLevel(violations, Critical),
      CountLevel(violations, High),
      CountLevel(violations, Medium),
      CountLevel(violations, Low))
  }

  /** Every violation is counted under exactly one level. */
  lemma {:induction false} BreakdownSums(violations: seq<Violation>)
    ensures var b := BreakdownOf(violations);
      b.critical + b.high + b.medium + b.low == |violations|
    decreases |violations|
  {
    if violations != [] {
      BreakdownSums(violations[1..]);
    }
  }

  // ---------------------------------------------------------------------------
  // The handler
  // ---------------------------------------------------------------------------

  /** The explained violations, one per violation, in order. */
  function RiskyClauses(text: string, violations: seq<Violation>, explain: Violation -> Option<Explanation>): (r: seq<RiskyClause>)
    ensures |r| == |violations|
  {
    seq(|violations|, i requires 0 <= i < |violations| => RiskyClauseFor(text, violations, i, explain))
  }

  /** The reply's body once the pipeline has produced its parts. */
  function Assemble(f: Upload, text: string, clauseCount: nat, violations: seq<Violation>,
                    deviations: seq<Deviation>, explain: Violation -> Option<Explanation>): Report
  {
    var riskScore := Scorer.RiskScore(violations);
    Report(
      Document(f.name, f.size, f.fileType, text),
      Analysis(riskScore, Scorer.GetRiskLevel(riskScore), clauseCount, |violations|, |deviations|,
        BreakdownOf(violations)),
      RiskyClauses(text, violations, explain),
      deviations,
      Disclaimer())
  }

  /** The report for an accepted upload whose text was extracted. */
  function ReportFor(f: Upload, text: string, load: IndianLawValidator.PatternLoad,
                     baselines: seq<DeviationChecker.Baseline>, explain: Violation -> Option<Explanation>): Report
  {
    var clauses := Parser.Clauses(text);
    Assemble(f, text, |clauses|,
      IndianLawValidator.Violations(clauses, IndianLawValidator.ActivePatterns(load)),
      DeviationChecker.Deviations(clauses, baselines),
      explain)
  }

  /** What the catch block replies with. */
  function ServerError(thrown: Thrown): Reply {
    match thrown
    case ErrorObject(message) => Rejected(500, message)
    case OtherValue => Rejected(500, "Internal " + "server error")
  }

  /** The report-building half of the handler: score, explain, count. */
  method BuildReport(f: Upload, text: string, clauseCount: nat, violations: seq<Violation>,
                     deviations: seq<Deviation>, explain: Violation -> Option<Explanation>)
    returns (report: Report)
    ensures report == Assemble(f, text, clauseCount, violations, deviations, explain)
  {
    var riskScore := Scorer.CalculateRiskScore(violations);
    var explainedViolations := ExplainViolations(text, violations, explain);
    var breakdown := Breakdown(
      |Filter(violations, HasLevel(Critical))|,
      |Filter(violations, HasLevel(High))|,
      |Filter(violations, HasLevel(Medium))|,
      |Filter(violations, HasLevel(Low))|);
    report := Report(
      Document(f.name, f.size, f.fileType, text),
      Analysis(riskScore, Scorer.GetRiskLevel(riskScore), clauseCount, |violations|, |deviations|, breakdown),
      explainedViolations,
      deviations,
      Disclaimer());
    assert explainedViolations == RiskyClauses(text, violations, explain);
  }

  /** `POST`: validate the upload, extract its text, and run the pipeline. */
  method Post(file: Option<Upload>, extracted: Result<string, Thrown>, load: IndianLawValidator.PatternLoad,
              baselines: seq<DeviationChecker.Baseline>, explain: Violation -> Option<Explanation>)
    returns (reply: Reply)
    ensures ValidateUpload(file).Failure? ==> reply == ValidateUpload(file).error
    ensures ValidateUpload(file).Success? && extracted.Failure? ==> reply == ServerError(extracted.error)
    ensures ValidateUpload(file).Success? && extracted.Success? ==>
      reply == Ok(ReportFor(file.value, extracted.value, load, baselines, explain))
  {
    match ValidateUpload(file) {
      case Failure(rejection) =>
        return rejection;
      case Success(_) =>
        reply := Extracted(file.value, extracted, load, baselines, explain);
    }
  }

  /** The `try` block once the upload is accepted: a thrown extraction is
      caught as a 500, extracted text goes through the pipeline. */
  method Extracted(f: Upload, extracted: Result<string, Thrown>, load: IndianLawValidator.PatternLoad,
                   baselines: seq<DeviationChecker.Baseline>, explain: Violation -> Option<Explanation>)
    returns (reply: Reply)
    ensures extracted.Failure? ==> reply == ServerError(extracted.error)
    ensures extracted.Success? ==> reply == Ok(ReportFor(f, extracted.value, load, baselines, explain))
  {
    match extracted {
      case Failure(thrown) =>
        return ServerError(thrown);
      case Success(text) =>
        var report := Analyze(f, text, load, baselines, explain);
        return Ok(report);
    }
  }

  /** The pipeline on the extracted text: parse, validate, compare, then
      build the report. */
  method Analyze(f: Upload, text: string, load: IndianLawValidator.PatternLoad,
                 baselines: seq<DeviationChecker.Baseline>, explain: Violation -> Option<Explanation>)
    returns (report: Report)
    ensures report == ReportFor(f, text, load, baselines, explain)
  {
    var clauses := Parser.ParseIntoClauses(text);
    var violations := IndianLawValidator.ValidateAgainstIndianLaw(clauses, load);
    var deviations := DeviationChecker.CheckDeviationsFromFairContract(clauses, baselines);
    report := BuildReport(f, text, |clauses|, violations, deviations, explain);
  }

  // ---------------------------------------------------------------------------
  // Properties of the report
  // ---------------------------------------------------------------------------

  /** The summary fields agree with the parts: the level is the score's
      band, the score is at most 100, and the breakdown adds up to the number
      of violations reported. */
  lemma AssembledIsConsistent(f: Upload, text: string, clauseCount: nat, violations: seq<Violation>,
                              deviations: seq<Deviation>, explain: Violation -> Option<Explanation>)
    ensures var r := Assemble(f, text, clauseCount, violations, deviations, explain);
      r.analysis.riskLevel == Scorer.GetRiskLevel(r.analysis.overallRiskScore) &&
      r.analysis.overallRiskScore == Scorer.RiskScore(violations) <= 100 &&
      r.analysis.totalClauses == clauseCount &&
      r.analysis.riskyClausesFound == |r.riskyClauses| == |violations| &&
      r.analysis.deviationsFromFairContract == |r.deviations| &&
      r.analysis.breakdown.critical + r.analysis.breakdown.high +
        r.analysis.breakdown.medium + r.analysis.breakdown.low == r.analysis.riskyClausesFound
  {
    BreakdownSums(violations);
    Scorer.ScoreBounds(violations);
  }

  /** The report counts every parsed clause, and finds at most one risky
      clause per clause. */
  lemma ReportIsConsistent(f: Upload, text: string, load: IndianLawValidator.PatternLoad,
                           baselines: seq<DeviationChecker.Baseline>, explain: Violation -> Option<Explanation>)
    ensures ReportFor(f, text, load, baselines, explain).analysis.totalClauses == |Parser.Clauses(text)|
    ensures ReportFor(f, text, load, baselines, explain).analysis.riskyClausesFound <= |Parser.Clauses(text)|
  {
    var clauses := Parser.Clauses(text);
    var violations := IndianLawValidator.Violations(clauses, IndianLawValidator.ActivePatterns(load));
    AssembledIsConsistent(f, text, |clauses|, violations, DeviationChecker.Deviations(clauses, baselines), explain);
    IndianLawValidator.AtMostOnePerClause(clauses, IndianLawValidator.ActivePatterns(load));
  }

  /** The score and its level depend only on the violations: the deviations
      and the explainer change neither, and the risky clauses do not depend on
      the deviations. */
  lemma ScoreIgnoresDeviationsAndExplainer(f: Upload, text: string, clauseCount: nat, violations: seq<Violation>,
                                           d1: seq<Deviation>, e1: Violation -> Option<Explanation>,
                                           d2: seq<Deviation>, e2: Violation -> Option<Explanation>)
    ensures Assemble(f, text, clauseCount, violations, d1, e1).analysis.overallRiskScore ==
            Assemble(f, text, clauseCount, violations, d2, e2).analysis.overallRiskScore
    ensures Assemble(f, text, clauseCount, violations, d1, e1).analysis.riskLevel ==
            Assemble(f, text, clauseCount, violations, d2, e2).analysis.riskLevel
    ensures Assemble(f, text, clauseCount, violations, d1, e1).riskyClauses ==
            Assemble(f, text, clauseCount, violations, d2, e1).riskyClauses
  {
  }

  /** With ids increasing along the violations, the explained violations are
      numbered 1, 2, … and their clause numbers increase. */
  lemma RiskyClausesNumbered(text: string, violations: seq<Violation>, explain: Violation -> Option<Explanation>)
    requires forall x, y :: 0 <= x < y < |violations| ==> violations[x].clauseId < violations[y].clauseId
    ensures var rs := RiskyClauses(text, violations, explain);
      (forall i :: 0 <= i < |rs| ==> rs[i].id == i + 1) &&
      (forall i, j :: 0 <= i < j < |rs| ==> rs[i].clauseNumber < rs[j].clauseNumber)
  {
  }

  /** In the report, the explained violations are numbered 1, 2, … and follow
      the clauses' order, each clause appearing at most once. */
  lemma RiskyClausesInClauseOrder(f: Upload, text: string, load: IndianLawValidator.PatternLoad,
                                  baselines: seq<DeviationChecker.Baseline>, explain: Violation -> Option<Explanation>)
    ensures var rs := ReportFor(f, text, load, baselines, explain).riskyClauses;
      (forall i :: 0 <= i < |rs| ==> rs[i].id == i + 1) &&
      (forall i, j :: 0 <= i < j < |rs| ==> rs[i].clauseNumber < rs[j].clauseNumber)
  {
    var clauses := Parser.Clauses(text);
    var patterns := IndianLawValidator.ActivePatterns(load);
    var violations := IndianLawValidator.Violations(clauses, patterns);
    Parser.ClauseIdsSequential(text);
    IndianLawValidator.ViolationsInClauseOrder(clauses, patterns);
    RiskyClausesNumbered(text, violations, explain);
  }
}
