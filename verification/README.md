# aiLegal contract analysis, modelled in Dafny

aiLegal reads a freelance contract, splits it into clauses, checks each clause
against rules drawn from the Indian Contract Act, compares it with "fair
contract" baselines, and reports a 0–100 risk score. This project models the
deterministic core of that pipeline and proves what it promises:

- **Clause segmenter** (`parseIntoClauses`), module `Parser`. It tries three
  strategies in turn: numbered lines, ALL-CAPS `HEADER:` lines, then paragraphs
  longer than 50 characters. The first strategy with more than three matches
  wins, and clauses are numbered from 1. Each regular expression is modelled
  by a hand-written scanner that follows the JavaScript engine's backtracking,
  and `matchAll` by the generic `MatchAll` module.
- **Statutory pattern matcher** (`validateAgainstIndianLaw`), module
  `IndianLawValidator`. The first pattern with two or more case-insensitive
  keyword hits gives the clause its one violation. The loaded pattern list,
  or the reason it could not be loaded, is a parameter. The five built-in
  fallback patterns are spelled out.
- **Fair-practice deviations** (`checkDeviationsFromFairContract`), module
  `DeviationChecker`. There are four checks: payment days, immediate
  termination, unlimited liability and a foreign forum. Each looks at the first
  clause that mentions its topic. The baseline rows are a parameter.
- **Scorer** (`calculateRiskScore`, `getRiskLevel`), module `Scorer`. The score
  is the sum of the violations' scores capped at 100. It falls in one of four
  bands.
- **The analyze endpoint**, module `AnalyzeRoute`. It covers:
  - upload validation;
  - composing the pipeline;
  - placing each violation in the extracted text (exact match, then a
    50-character prefix, then an estimate, then clamping);
  - the explanation fallback;
  - the per-level breakdown;
  - the shape of the report.
- **Act loader helpers** (`extractSections`, `generateSummary`, `chunkText`),
  module `ActLoader`.

Supporting modules:

- `Wrappers` holds `Option` and `Result`.
- `JsText` holds the JavaScript string operations the code relies on:
  - `trim` and its whitespace class;
  - `toLowerCase` on ASCII letters;
  - `indexOf` and `includes`;
  - `split` on `/\n\n+/` and `/\s+/`;
  - `join`;
  - `a || b` on strings;
  - decimal printing and parsing.
- `Sequences` holds `find`, `filter` and a push-per-element `forEach`.
- `ContractTypes` holds the records of `lib/types/contract.types.ts`.
- `Constants` holds `lib/utils/constants.ts`.

Each loop in the source is a `method` with a `while` loop, proved equal to a
specification function. The properties are lemmas about those functions.

The jurisdiction deviation reports "Foreign jurisdiction (non-Indian)" with
the fair standard "Indian courts"
(lib/services/deviationChecker.service.ts:108-109), and it never reads a
baseline.

## Model

| member | source | states |
|---|---|---|
| Constants.AllowedFileTypes | lib/utils/constants.ts:14-20 | the upload whitelist has five MIME types |
| JsText.Skip | lib/services/parser.service.ts:12 | a greedy run of a character class stops at the first character outside it (or the end) |
| JsText.SkipRun | lib/services/parser.service.ts:12 | every character a greedy run passes over is in the class |
| JsText.LineEnd | lib/db/actLoader.ts:92 | `[^\n]+` stops at the first newline or the end of the text |
| JsText.LineEndRun | lib/db/actLoader.ts:92 | no character before the line end is a newline |
| JsText.LastNonNewline | lib/db/actLoader.ts:92 | backtracking a whitespace run gives back its last non-newline character, after which only newlines follow |
| JsText.Lower | lib/services/indianLawValidator.service.ts:86 | lower-casing keeps the length |
| JsText.LowerAt | lib/services/indianLawValidator.service.ts:86 | lower-casing maps each character on its own |
| JsText.TrimBack | lib/services/parser.service.ts:20 | trimming the end stops after a non-space character |
| JsText.TrimBackRun | lib/services/parser.service.ts:20 | everything trimmed from the end is whitespace |
| JsText.Trim | lib/services/parser.service.ts:20 | `trim` never lengthens a string |
| JsText.TrimEmpty | lib/services/parser.service.ts:43 | `trim` gives "" exactly for all-whitespace strings |
| JsText.TrimShape | lib/services/parser.service.ts:20 | the trimmed string is the slice between the leading and trailing whitespace runs, and it starts and ends with non-space characters |
| JsText.TrimIdempotent | lib/services/parser.service.ts:20 | trimming twice is trimming once |
| JsText.AgreesFromSlice | lib/services/indianLawValidator.service.ts:99 | the character-by-character comparison agrees with slice equality |
| JsText.OccursAtSlice | lib/services/indianLawValidator.service.ts:99 | an occurrence at `i` is exactly the slice from `i` being the needle |
| JsText.IndexOfFrom | app/api/analyze/route.ts:80 | the search result is -1 or a position where the needle fits |
| JsText.IndexOfFromIsFirst | app/api/analyze/route.ts:80 | searching from `i` finds the first occurrence at or after `i`, and -1 means there is none |
| JsText.IndexOf | app/api/analyze/route.ts:80 | `indexOf` is -1 or a position where the needle fits |
| JsText.IndexOfIsFirst | app/api/analyze/route.ts:80 | `indexOf` is -1 exactly when the needle occurs nowhere, else the first occurrence |
| JsText.AgreesLoweredFromIsAgreesFrom | lib/services/indianLawValidator.service.ts:98-100 | comparing with each keyword character lowered equals comparing with the lowered keyword |
| JsText.IncludesLoweredFromIsIndexOf | lib/services/indianLawValidator.service.ts:98-100 | the keyword scan succeeds from `i` exactly when `indexOf` of the lowered keyword does |
| JsText.IncludesLoweredIsIncludes | lib/services/indianLawValidator.service.ts:99 | `lowerText.includes(kw.toLowerCase())` as scanned equals `includes` of the lowered keyword |
| JsText.OrElse | lib/services/indianLawValidator.service.ts:108-115 | `a \|\| b` on strings is one of the two, and empty only when both are |
| JsText.SeparatorEnd | lib/services/parser.service.ts:43 | a separator match ends after the position it starts at |
| JsText.SplitFrom | lib/db/actLoader.ts:134 | splitting from a position always yields at least one piece |
| JsText.Split | lib/db/actLoader.ts:134 | `split` always yields at least one piece, even for "" |
| JsText.SplitFromOfSpaces | lib/services/parser.service.ts:43 | every piece of an all-whitespace text is all whitespace |
| JsText.SplitFromSpacesHasNoSpace | lib/db/actLoader.ts:134 | splitting on `/\s+/` leaves no whitespace inside a word |
| JsText.DigitChar | lib/services/deviationChecker.service.ts:39 | a digit value prints as a digit character |
| JsText.NatToString | lib/services/deviationChecker.service.ts:39 | a number prints as digits with no leading zero |
| JsText.NatToStringRoundTrip | lib/services/deviationChecker.service.ts:34-39 | reading back the printed number gives the number |
| MatchAll.MatchAllFrom | lib/services/parser.service.ts:13 | every match lies inside the text, after the scan's start |
| MatchAll.MatchAllFromAllMatch | lib/services/parser.service.ts:13 | every reported span is a match of the pattern where it starts |
| MatchAll.MatchAllFromOrdered | lib/services/parser.service.ts:13 | reported spans are in text order and do not overlap |
| MatchAll.MatchAllFromNoneSkipped | lib/services/parser.service.ts:13 | every position where the pattern matches is reported or lies inside a reported span |
| MatchAll.NoMatchNoSpans | lib/services/parser.service.ts:13 | no match anywhere means no spans |
| MatchAll.MatchAllFromIsMatchAll | lib/services/parser.service.ts:13 | `matchAll` reports exactly the leftmost non-overlapping matches, in order |
| Parser.NumberLabelEnd | lib/services/parser.service.ts:12 | a `\d+\.(\d+\.?)?` label starts with a digit and is followed by whitespace |
| Parser.HeaderLabelEnd | lib/services/parser.service.ts:28 | a `[A-Z][A-Z\s]{3,}:` label starts with a capital, has at least five characters and ends with `:` |
| Parser.LabelEnd | lib/services/parser.service.ts:12-28 | a label match is followed by whitespace |
| Parser.ExtendBody | lib/services/parser.service.ts:12-28 | a clause body runs on to the end of the text or to a newline where the next label starts |
| Parser.BodyEnd | lib/services/parser.service.ts:12-28 | a body match is non-empty |
| Parser.MatchAt | lib/services/parser.service.ts:12-28 | a clause match at `s` is non-empty and inside the text |
| Parser.Matcher | lib/services/parser.service.ts:13-29 | the matcher always advances and is the scanner at every position |
| Parser.NoMatchInBlankText | lib/services/parser.service.ts:12-13 | a whitespace-only text has no clause matches |
| Parser.NumberedMatches | lib/services/parser.service.ts:12-13 | the numbered matches are non-empty spans of the text |
| Parser.HeaderMatches | lib/services/parser.service.ts:28-29 | the header matches are non-empty spans of the text |
| Parser.MatchTexts | lib/services/parser.service.ts:20-35 | one trimmed text per match |
| Parser.Trimmed | lib/services/parser.service.ts:48 | one trimmed text per paragraph |
| Parser.ChosenStrategy | lib/services/parser.service.ts:15-31 | numbered lines win exactly with more than 3 matches; headers exactly when numbered has at most 3 and headers more than 3; paragraphs otherwise |
| Parser.Numbering | lib/services/parser.service.ts:17-22 | one clause per text |
| Parser.PushNumbered | lib/services/parser.service.ts:17-23 | the `forEach` push loop numbers the texts as the specification does |
| Parser.ParseIntoClauses | lib/services/parser.service.ts:7-54 | the method returns exactly the clauses of the chosen strategy |
| Parser.ClauseIdsSequential | lib/services/parser.service.ts:9-21 | clause `k` has id `k+1` and position `k`, so ids strictly increase |
| Parser.ParagraphDropped | lib/services/parser.service.ts:43 | a paragraph of at most 50 trimmed characters is dropped, the rest kept in order |
| Parser.ParagraphKept | lib/services/parser.service.ts:43 | a paragraph of more than 50 trimmed characters is kept in place |
| Parser.LongParagraphsAreLongAndTrimmed | lib/services/parser.service.ts:43-48 | every kept paragraph trims to more than 50 characters |
| Parser.BlankParagraphsDropped | lib/services/parser.service.ts:43 | whitespace-only paragraphs are all dropped |
| Parser.ClausesAreTrimmed | lib/services/parser.service.ts:20-48 | every clause text is its own trimmed form |
| Parser.ParagraphClausesAreLong | lib/services/parser.service.ts:43-50 | under the paragraph strategy every clause is longer than 50 characters |
| Parser.BlankTextHasNoClauses | lib/services/parser.service.ts:43 | empty or whitespace-only input gives no clauses |
| Parser.ClauseSpansOrdered | lib/services/parser.service.ts:12-29 | both match lists are leftmost, ordered and miss no match |
| IndianLawValidator.FallbackPatterns | lib/services/indianLawValidator.service.ts:5-61 | there are five built-in patterns |
| IndianLawValidator.ActivePatterns | lib/services/indianLawValidator.service.ts:71-82 | the loaded list is used when it has a pattern, else the built-in list; never both |
| IndianLawValidator.MatchedKeywords | lib/services/indianLawValidator.service.ts:98-100 | the hits are at most the keywords |
| IndianLawValidator.FirstFiring | lib/services/indianLawValidator.service.ts:88-119 | a reported pattern is in the list and fires |
| IndianLawValidator.ValidateAgainstIndianLaw | lib/services/indianLawValidator.service.ts:67-123 | the method returns exactly the specified violations for the active patterns |
| IndianLawValidator.CheckClauses | lib/services/indianLawValidator.service.ts:85-120 | the clause loop pushes each clause's violations in order |
| IndianLawValidator.CheckClause | lib/services/indianLawValidator.service.ts:86-119 | the pattern loop with `break` pushes the first firing pattern's violation or nothing |
| IndianLawValidator.ClauseViolationFound | lib/services/indianLawValidator.service.ts:103-117 | when the scan reaches a firing pattern, that pattern's violation is pushed |
| IndianLawValidator.FirstPatternFires | lib/services/indianLawValidator.service.ts:103-117 | a firing first pattern gives the violation |
| IndianLawValidator.ClauseViolationNotFound | lib/services/indianLawValidator.service.ts:88-119 | a scan that runs out of patterns pushes nothing |
| IndianLawValidator.FirstFiringStep | lib/services/indianLawValidator.service.ts:88-119 | one turn of the pattern loop either stops at a firing pattern or moves on |
| IndianLawValidator.MatchedKeywordsAreHits | lib/services/indianLawValidator.service.ts:98-100 | the hits are exactly the keywords whose lower-cased form occurs in the lowered text, in keyword order |
| IndianLawValidator.FirstFitReported | lib/services/indianLawValidator.service.ts:88-119 | a firing pattern preceded only by non-firing ones is the one reported |
| IndianLawValidator.ReportedIsFirstFit | lib/services/indianLawValidator.service.ts:88-119 | the reported pattern fires and every earlier one has fewer than 2 hits |
| IndianLawValidator.NoneFiring | lib/services/indianLawValidator.service.ts:88-119 | nothing is reported exactly when no pattern fires |
| IndianLawValidator.MalformedPatternIsSkipped | lib/services/indianLawValidator.service.ts:90-96 | a pattern whose keyword JSON does not parse never changes the outcome |
| IndianLawValidator.ClauseViolationShape | lib/services/indianLawValidator.service.ts:103-116 | at most one violation per clause, present exactly when a pattern fires, with at least 2 hits, fields copied from clause and pattern, and defaults for title and URL |
| IndianLawValidator.ViolationsAppend | lib/services/indianLawValidator.service.ts:85-120 | violations of consecutive clause lists concatenate |
| IndianLawValidator.AtMostOnePerClause | lib/services/indianLawValidator.service.ts:117 | there are no more violations than clauses |
| IndianLawValidator.ViolationsInClauseOrder | lib/services/indianLawValidator.service.ts:85-117 | each violation names a clause, and clause ids strictly increase along the violations |
| IndianLawValidator.NoClausesNoViolations | lib/services/indianLawValidator.service.ts:68-122 | no clauses give no violations |
| IndianLawValidator.TwoHitsFire | lib/services/indianLawValidator.service.ts:103 | two distinct keywords found in the text make the pattern fire |
| IndianLawValidator.NonCompeteIsCaught | lib/services/indianLawValidator.service.ts:6-16 | without database patterns, a clause with two non-compete keywords gets the Section 27 CRITICAL violation scoring 40 |
| DeviationChecker.FirstMentioning | lib/services/deviationChecker.service.ts:22-25 | the clause found is in the list and mentions one of the two words |
| DeviationChecker.FairStandard | lib/services/deviationChecker.service.ts:28-29 | the fair standard is the default or some matching baseline's value |
| DeviationChecker.CheckDeviationsFromFairContract | lib/services/deviationChecker.service.ts:9-118 | the method returns exactly the specified deviations |
| DeviationChecker.CheckPaymentTerms | lib/services/deviationChecker.service.ts:21-54 | the payment block pushes the payment deviation, if any |
| DeviationChecker.CheckTerminationNotice | lib/services/deviationChecker.service.ts:56-73 | the termination block pushes the termination deviation, if any |
| DeviationChecker.CheckLiabilityCap | lib/services/deviationChecker.service.ts:75-92 | the liability block pushes the liability deviation, if any |
| DeviationChecker.CheckJurisdiction | lib/services/deviationChecker.service.ts:94-115 | the jurisdiction block pushes the jurisdiction deviation, if any |
| DeviationChecker.DaysFromIsLeftmost | lib/services/deviationChecker.service.ts:32 | the day count comes from the leftmost `(\d+)\s*days?` match, and there is none exactly when no position matches |
| DeviationChecker.DaysMatchExtendsBack | lib/services/deviationChecker.service.ts:32 | a match preceded by a digit also matches one position earlier, over the same digit run |
| DeviationChecker.LeftmostMatchTakesWholeRun | lib/services/deviationChecker.service.ts:32-34 | the captured number is a whole digit run, not a suffix of one |
| DeviationChecker.PaymentBands | lib/services/deviationChecker.service.ts:36-53 | nothing for at most 60 days; SIGNIFICANT for 61–90; EXTREME above 90; found text "Net {days} days" |
| DeviationChecker.FairStandardFromBaseline | lib/services/deviationChecker.service.ts:28-29 | the first baseline with the category supplies the fair standard |
| DeviationChecker.FairStandardDefault | lib/services/deviationChecker.service.ts:28-29 | with no matching baseline the fixed default is used |
| DeviationChecker.OnlyFirstPaymentClause | lib/services/deviationChecker.service.ts:22-25 | only the first clause mentioning payment or invoice is examined |
| DeviationChecker.TerminationIff | lib/services/deviationChecker.service.ts:57-73 | a termination deviation appears exactly when the first termination clause says "immediate" |
| DeviationChecker.LiabilityIff | lib/services/deviationChecker.service.ts:76-92 | a liability deviation appears exactly when the first liability clause says "unlimited" |
| DeviationChecker.ForeignForumIff | lib/services/deviationChecker.service.ts:101-104 | a foreign forum is named exactly when one of the eight names occurs, case-sensitively |
| DeviationChecker.DeviationsInCheckOrder | lib/services/deviationChecker.service.ts:21-117 | at most four deviations, one per category, in the order Payment, Termination, Liability, Jurisdiction |
| DeviationChecker.PaymentRank | lib/services/deviationChecker.service.ts:38 | a payment deviation's category ("Payment Terms") ranks first |
| DeviationChecker.TerminationRank | lib/services/deviationChecker.service.ts:67 | a termination deviation's category ("Termination Notice") ranks second |
| DeviationChecker.LiabilityRank | lib/services/deviationChecker.service.ts:86 | a liability deviation's category ("Liability Cap") ranks third |
| DeviationChecker.JurisdictionRank | lib/services/deviationChecker.service.ts:108-110 | a jurisdiction deviation ranks fourth, is SIGNIFICANT, and always has the fair standard "Indian courts" |
| DeviationChecker.PushRanked | lib/services/deviationChecker.service.ts:37-107 | pushing at most one item of the next rank keeps the list ranked |
| DeviationChecker.RankedInOrder | lib/services/deviationChecker.service.ts:21-117 | four optional pushes of ranks 0–3 give a ranked list of at most four |
| DeviationChecker.NoClausesNoDeviations | lib/services/deviationChecker.service.ts:22-95 | no clauses give no deviations |
| Scorer.CalculateRiskScore | lib/services/scorer.service.ts:7-16 | the loop's result is the total of the scores capped at 100, so never above 100 |
| Scorer.GetRiskLevel | lib/services/scorer.service.ts:21-26 | the level is one of the four labels |
| Scorer.TotalAppendOne | lib/services/scorer.service.ts:10-12 | one more violation adds its score to the total |
| Scorer.TotalAppend | lib/services/scorer.service.ts:10-12 | the total of two lists is the sum of their totals |
| Scorer.TotalNonNegative | lib/services/scorer.service.ts:10-12 | with no negative scores the total is not negative |
| Scorer.EmptyScoresZero | lib/services/scorer.service.ts:8-15 | no violations score 0, which is SAFE |
| Scorer.ScoreBounds | lib/services/scorer.service.ts:15 | the score is at most 100, and at least 0 when no score is negative |
| Scorer.AppendNeverDecreases | lib/services/scorer.service.ts:10-15 | one more violation with a non-negative score never lowers the score |
| Scorer.RiskLevelBands | lib/services/scorer.service.ts:21-26 | DANGEROUS exactly from 76, HIGH RISK exactly 51–75, MODERATE RISK exactly 26–50, SAFE exactly below 26 |
| Scorer.RiskLevelMonotone | lib/services/scorer.service.ts:21-26 | a higher score never gives a less severe level |
| Scorer.SingleNonCompeteIsModerate | lib/services/scorer.service.ts:7-26 | one clause caught by the built-in non-compete pattern scores 40, a MODERATE RISK |
| Scorer.OneViolationScore | lib/services/scorer.service.ts:10-15 | a single violation scores its own score, capped at 100 |
| ActLoader.HeaderAt | lib/db/actLoader.ts:92 | a header match at `s` starts with "section" in any case, has a digit-led number of digits and an optional letter, then the separator, and a title with no newline |
| ActLoader.HeaderScanner | lib/db/actLoader.ts:92-93 | the scanner is the header matcher at every position |
| ActLoader.MatchesFrom | lib/db/actLoader.ts:93 | the matches from `p` are well-formed, non-overlapping and in order |
| ActLoader.HeaderMatches | lib/db/actLoader.ts:92-93 | the header matches are well-formed, non-overlapping and in order |
| ActLoader.MatchesAreScanned | lib/db/actLoader.ts:93 | every reported match is what the scanner finds at its start |
| ActLoader.NoneSkippedFrom | lib/db/actLoader.ts:93 | every position where a header matches lies in some reported match |
| ActLoader.NothingScanned | lib/db/actLoader.ts:93 | no match anywhere means no matches |
| ActLoader.HeaderMatchesAreMatches | lib/db/actLoader.ts:92-93 | every header match is the regex's match at its start, and the matches are ordered |
| ActLoader.NoHeaderSkipped | lib/db/actLoader.ts:92-93 | no header in the text is missed |
| ActLoader.NoSectionWordNoMatches | lib/db/actLoader.ts:92-93 | a text never containing "section" has no header matches |
| ActLoader.NextStart | lib/db/actLoader.ts:104 | a section ends at the next match's start or at the end of the text, after its own header |
| ActLoader.ExtractSections | lib/db/actLoader.ts:88-119 | the sections are exactly `Sections` of the text's header matches: one per match, in match order |
| ActLoader.SectionsFor | lib/db/actLoader.ts:95-116 | the `for` loop pushes, for each match in turn, the section built from it |
| ActLoader.SectionAt | lib/db/actLoader.ts:96-115 | one loop turn builds the section of match `i`: trimmed number and title, the trimmed slice up to the next match or the end, and the page |
| ActLoader.SectionsAt | lib/db/actLoader.ts:95-116 | there is one section per match, and section `k` is the one built from match `k` |
| ActLoader.NoHeaderNoSections | lib/db/actLoader.ts:93-118 | a text without "section" in any case yields an empty section list |
| ActLoader.SectionTextIsItsSlice | lib/db/actLoader.ts:102-105 | a section's text is a prefix of its slice up to the next match, at least 9 characters long |
| ActLoader.TrimKeepsFront | lib/db/actLoader.ts:105 | trimming a string that starts with a non-space keeps its front |
| ActLoader.SectionsDoNotOverlap | lib/db/actLoader.ts:102-105 | earlier sections' slices end before later sections start |
| ActLoader.PagesInOrder | lib/db/actLoader.ts:108 | pages are at least 1 and never decrease along the sections |
| ActLoader.NumberAndTitleShape | lib/db/actLoader.ts:99-100 | the number is "Section " followed by digits and an optional letter, and the title is on one line |
| ActLoader.OneLineTrimmed | lib/db/actLoader.ts:100 | trimming a one-line string keeps it on one line |
| ActLoader.NewlinesToSpaces | lib/db/actLoader.ts:127 | replacing newlines keeps the length |
| ActLoader.GenerateSummary | lib/db/actLoader.ts:124-128 | the summary has 3 to 203 characters and ends with "..." |
| ActLoader.SummaryIsOneLine | lib/db/actLoader.ts:127 | the summary has no newline, and its text before "..." is trimmed |
| ActLoader.ShortLineIsKept | lib/db/actLoader.ts:124-128 | a one-line text of at most 200 characters with no edge spaces is kept whole, followed by "..." |
| ActLoader.ChunkText | lib/db/actLoader.ts:133-141 | the `i += maxWords` loop returns exactly the joined word chunks |
| ActLoader.ChunkedIsJoined | lib/db/actLoader.ts:138 | chunk `k` is the words of word chunk `k` joined by single spaces |
| ActLoader.ChunkStep | lib/db/actLoader.ts:137-138 | one loop turn takes the next `maxWords` words, or what is left |
| ActLoader.ChunksRebuildWords | lib/db/actLoader.ts:134-139 | concatenating the chunks' words gives the word list back |
| ActLoader.ChunkSizes | lib/db/actLoader.ts:137-138 | every chunk but the last has exactly `maxWords` words, and the last has 1 to `maxWords` |
| ActLoader.ChunkCount | lib/db/actLoader.ts:137 | the chunk count is ceil(#words / maxWords) |
| ActLoader.ChunkAt | lib/db/actLoader.ts:137-138 | chunk `k` is `words[k·maxWords .. (k+1)·maxWords)`, cut at the end |
| AnalyzeRoute.UploadAcceptedIff | app/api/analyze/route.ts:19-39 | an upload is accepted exactly when a file is present, its type is allowed and its size is at most 10 MiB; each rejection is a 400 with the message of the first failing check |
| AnalyzeRoute.Prefix50 | app/api/analyze/route.ts:85 | the search prefix is the clause's first 50 characters, or the whole clause when it is shorter |
| AnalyzeRoute.Estimate | app/api/analyze/route.ts:91 | the estimate for a violation among `count` lies within the text length |
| AnalyzeRoute.EstimateBound | app/api/analyze/route.ts:91 | the proportional estimate is not negative and, for a rank below the count, not past the text |
| AnalyzeRoute.LocateClause | app/api/analyze/route.ts:78-106 | the reassignment steps give the specified clamped start and end |
| AnalyzeRoute.RangeInsideText | app/api/analyze/route.ts:94-106 | 0 ≤ startIndex ≤ endIndex ≤ text length |
| AnalyzeRoute.FoundClauseIsCovered | app/api/analyze/route.ts:78-94 | when the clause occurs, ignoring case, the range is its first occurrence exactly |
| AnalyzeRoute.PrefixFallback | app/api/analyze/route.ts:83-87 | otherwise, when its first 50 characters occur, the start is their first occurrence |
| AnalyzeRoute.EstimateFallback | app/api/analyze/route.ts:90-92 | otherwise the start is the proportional estimate, within the text |
| AnalyzeRoute.ExplainViolations | app/api/analyze/route.ts:57-124 | the `map` over the violations gives, at each index, the specified explained violation |
| AnalyzeRoute.ExplainedViolation | app/api/analyze/route.ts:62-121 | explained violation `i` has id `i+1`, the violation's clause id, text, level and score, and a range inside the text; a failed explanation falls back to the violation's explanation and the fixed impact text |
| AnalyzeRoute.BreakdownSums | app/api/analyze/route.ts:144-149 | the four per-level counts add up to the number of violations |
| AnalyzeRoute.RiskyClauses | app/api/analyze/route.ts:57-58 | one explained violation per violation |
| AnalyzeRoute.BuildReport | app/api/analyze/route.ts:54-154 | scoring, explaining and counting give the specified report |
| AnalyzeRoute.Post | app/api/analyze/route.ts:10-168 | a bad upload gets its 400 reply; an extraction failure gets a 500 with the error's message; otherwise the reply is the report of the pipeline run on the extracted text |
| AnalyzeRoute.Extracted | app/api/analyze/route.ts:42-163 | once the upload is accepted, a thrown extraction becomes a 500 reply and extracted text becomes the report of the pipeline run on it |
| AnalyzeRoute.Analyze | app/api/analyze/route.ts:45-154 | parsing, validating, comparing and building give the report specified for the text |
| AnalyzeRoute.AssembledIsConsistent | app/api/analyze/route.ts:138-149 | the level is the score's band; the score is the capped total and at most 100; the counts match the parts; the breakdown sums to the violations found |
| AnalyzeRoute.ReportIsConsistent | app/api/analyze/route.ts:45-142 | the report counts every parsed clause and finds no more risky clauses than clauses |
| AnalyzeRoute.ScoreIgnoresDeviationsAndExplainer | app/api/analyze/route.ts:51-140 | score and level depend on the violations alone, and the risky clauses do not depend on the deviations |
| AnalyzeRoute.RiskyClausesNumbered | app/api/analyze/route.ts:99-100 | with increasing clause ids, the risky clauses are numbered 1, 2, … and their clause numbers increase |
| AnalyzeRoute.RiskyClausesInClauseOrder | app/api/analyze/route.ts:45-100 | in the report the risky clauses are numbered 1, 2, … and follow the clause order, one per clause at most |
| Sequences.FirstWhere | lib/services/deviationChecker.service.ts:22-25 | `find` returns a member that satisfies the test |
| Sequences.Filter | lib/services/parser.service.ts:43 | `filter` never lengthens |
| Sequences.FirstWhereFindsFirst | lib/services/deviationChecker.service.ts:22-25 | `find` returns the first satisfying element |
| Sequences.FirstWhereHasNoEarlier | lib/services/deviationChecker.service.ts:22-25 | no element before the found one satisfies the test |
| Sequences.FirstWhereNone | lib/services/deviationChecker.service.ts:27 | `find` finds nothing exactly when no element satisfies the test |
| Sequences.FirstWhereSkips | lib/services/deviationChecker.service.ts:28 | removing a failing element does not change what is found |
| Sequences.FirstWhereStep | lib/services/indianLawValidator.service.ts:88-119 | one scan step stops at a satisfying element or moves on |
| Sequences.FilterAppend | lib/services/parser.service.ts:43 | filtering distributes over concatenation |
| Sequences.FilterOne | lib/services/parser.service.ts:43 | filtering one element keeps it exactly when it passes |
| Sequences.FilterMiddle | lib/services/parser.service.ts:43 | filtering keeps or drops one element without disturbing the others |
| Sequences.FilterMembers | lib/services/indianLawValidator.service.ts:98-100 | the filter keeps exactly the passing elements |
| Sequences.FilterKeepsOrder | lib/services/indianLawValidator.service.ts:98-100 | the filter keeps the order of what it keeps |
| Sequences.FlatMapAppend | lib/services/indianLawValidator.service.ts:85-120 | pushing over concatenated lists concatenates the pushes |
| Sequences.FlatMapStep | lib/services/indianLawValidator.service.ts:85-120 | one loop turn pushes the element's own results |
| Sequences.FlatMapOne | lib/services/indianLawValidator.service.ts:85-120 | a single element pushes its own results |
| Sequences.FlatMapSingletons | lib/db/actLoader.ts:137-139 | with one result per element, result `k` is element `k`'s |
| Sequences.FlatMapAtMostOne | lib/services/indianLawValidator.service.ts:117 | with at most one result per element, there are no more results than elements |
| Sequences.FlatMapKeysIncrease | lib/services/indianLawValidator.service.ts:85-117 | with at most one result per element, carrying the element's key, increasing keys stay increasing |

## Left out

- Text extraction (PDF, DOCX and image OCR libraries): the extracted text, or what extraction threw, is a parameter of `AnalyzeRoute.Post`.
- The explanation service (a Gemini network call): its answer or its failure, per violation, is the parameter `explain`. The `language` form field only reaches that service, so it is not modelled. As written, the route reads `explained.simpleExplanation` and `explained.realLifeImpact` (app/api/analyze/route.ts:69-70). However, `explainClause` returns an object with `freelancer` and `company` perspectives (lib/services/explainer.service.ts:16-19). It also catches the failures of the Gemini call itself (lib/services/explainer.service.ts:79-103 and 136-209). So in the source both fields are `undefined` whenever the call returns. The fallback strings apply only when `explainClause` throws, for example when the template lookup at lib/services/explainer.service.ts:21, which is outside both `try` blocks, fails. The model follows the evident intent: `explain` yields either the two strings or a failure, and a failure gives the fallback.
- Pattern and baseline loading from the database: the loaded rows (or the load failure) and the baseline rows are parameters. Rows are typed records; a `null` baseline row is not modelled.
- `JSON.parse` of a pattern's keyword string is modelled as either a keyword list or a payload that does not parse (which gives `[]`). Other payloads make the source throw outside the `try`, at `keywords.filter` or `kw.toLowerCase` (lib/services/indianLawValidator.service.ts:98-99). These are a JSON value that parses but is not an array (`null`, a number, an object, a string), a NULL keywords column, and an array holding a non-string entry. The throw aborts `validateAgainstIndianLaw`, and the route's catch turns it into a 500 reply carrying the TypeError's message. The model cannot represent these payloads, so this failure path is not modelled.
- `IMPACT_PROFILES` is imported but not defined in `lib/utils/constants.ts`, so it is not part of this model; `appliesTo` and `businessRisk` take their defaults `["All"]` and `"Contract Risk"`. As written, the route reads `IMPACT_PROFILES[violation.violationType]` (app/api/analyze/route.ts:96), but the binding it imports is not exported. That line is outside the per-violation `try`, so for any contract with at least one violation the source would fail to compile or throw a TypeError there. `Promise.all` would then reject, and the catch would reply 500 with that message. The model follows the evident intent, a report with the defaults, instead.
- `processingTimeMs`, `extractedCharacters` and `pageCount` in the reply are clock and extraction metadata and are left out of the report.
- `Promise.all` runs the explanation calls concurrently; the model explains the violations one after another, which gives the same array.
- AnalyzeRoute.Estimate: the proportional estimate is floating-point `floor(index / count * length)` in the source; the model uses exact integer `index * length / count`, which can differ from the float result by rounding.
- `toLowerCase` is modelled on ASCII letters only; other characters are left as they are.
- Strings are sequences of Unicode scalar values, so every length, index and slice in the model counts characters. JavaScript's `length`, `indexOf`, `substring` and `slice` count UTF-16 code units. The two agree on text within the Basic Multilingual Plane. They differ on text with characters outside it, such as emoji, which count twice in JavaScript. On such text the model can differ from the source in:
  - the 50-character paragraph threshold;
  - the route's `startIndex`, `endIndex` and estimate;
  - the act loader's page numbers;
  - the 200-character summary cut.
- ActLoader.ChunkText: `maxWords` is a positive whole number; a zero, negative or fractional `maxWords` (0 never ends the loop) is not modelled.
- `parseInt` of the captured day count: the digits are read as an unbounded natural number, with no float precision limit.
- The act loader's `loadIndianContractActPDF` (fetching, file system and database inserts) is not part of this model; only its three pure helpers are.
- The `endIndex` branch `startIndex + 100` for a negative start cannot be taken, because every step leaves the start non-negative; it is modelled as written.
