/** The records the analysis pipeline passes between its stages. */
module ContractTypes {

  /** One segmented unit of contract text: `id` counts from 1, `position` is
      the 0-based index in the segmenter's output. */
  datatype Clause = Clause(id: int, text: string, position: int)

  /** A statutory pattern's severity. */
  datatype RiskLevel = Critical | High | Medium | Low

  /** How far a term departs from the fair-practice baseline. */
  datatype DeviationLevel = Extreme | Significant | Minor

  /** One statutory pattern that fired on one clause. */
  datatype Violation = Violation(
    clauseId: int,
    clauseText: string,
    violationType: string,
    sectionNumber: string,
    sectionTitle: string,
    sectionFullText: string,
    riskLevel: RiskLevel,
    riskScore: int,
    matchedKeywords: seq<string>,
    explanation: string,
    govUrl: string)

  /** One departure from a fair-practice baseline. */
  datatype Deviation = Deviation(
    category: string,
    foundInContract: string,
    fairStandard: string,
    deviationLevel: DeviationLevel,
    explanation: string)
}
