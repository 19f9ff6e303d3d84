/** The clause segmenter: three strategies tried in order (numbered lines,
    ALL-CAPS `HEADER:` lines, blank-line paragraphs); the first that finds more
    than three pieces is used alone, and its pieces are numbered from 1.

    The two regular expressions of the first strategies are modelled by a
    scanner that follows the JavaScript engine's greedy matching and
    backtracking step by step:
      numbered  /(?:^|\n)\s*(\d+\.(?:\d+\.?)?)\s+([^\n]+(?:\n(?!\s*\d+\.)[^\n]*)*)/g
      header    /(?:^|\n)\s*([A-Z][A-Z\s]{3,}:)\s+([^\n]+(?:\n(?![A-Z][A-Z\s]{3,}:)[^\n]*)*)/g */
module Parser {
  import opened Wrappers
  import opened JsText
  import opened ContractTypes
  import opened MatchAll
  import opened Sequences

  /** The two line-oriented patterns. */
  datatype LineKind = Numbered | Header

  /** Which strategy produced a document's clauses. */
  datatype Strategy = ByNumber | ByHeader | ByParagraph

  // ---------------------------------------------------------------------------
  // The scanner
  // ---------------------------------------------------------------------------

  /** `\d+\.(?:\d+\.?)?` at `i`, with the alternative the following `\s+`
      accepts: the result is the index of the first character of `\s+`. */
  function NumberLabelEnd(t: string, i: nat): (r: Option<nat>)
    requires i <= |t|
    ensures r.Some? ==> i < r.value < |t| && IsSpace(t[r.value]) && IsDigit(t[i])
  {
    var d := Skip(t, i, Digit);
    if d == i || d == |t| || t[d] != '.' then None
    else if d + 1 < |t| && IsDigit(t[d + 1]) then
      var k := Skip(t, d + 1, Digit);
      if k + 1 < |t| && t[k] == '.' && IsSpace(t[k + 1]) then Some(k + 1)
      else if k < |t| && IsSpace(t[k]) then Some(k)
      else None
    else if d + 1 < |t| && IsSpace(t[d + 1]) then Some(d + 1)
    else None
  }

  /** `[A-Z][A-Z\s]{3,}:` at `i`: the index just after the colon. The class
      `[A-Z\s]` cannot hold ':', so the greedy run never needs to give back. */
  function HeaderLabelEnd(t: string, i: nat): (r: Option<nat>)
    requires i <= |t|
    ensures r.Some? ==> i + 5 <= r.value <= |t| && IsUpper(t[i]) && t[r.value - 1] == ':'
  {
    if i < |t| && IsUpper(t[i]) then
      var k := Skip(t, i + 1, UpperOrSpace);
      if k >= i + 4 && k < |t| && t[k] == ':' then Some(k + 1) else None
    else None
  }

  /** The label of either pattern at `i`, when a space follows it: the index
      of that space, where `\s+` starts. */
  function LabelEnd(kind: LineKind, t: string, i: nat): (r: Option<nat>)
    requires i <= |t|
    ensures r.Some? ==> i < r.value < |t| && IsSpace(t[r.value])
  {
    match kind
    case Numbered => NumberLabelEnd(t, i)
    case Header =>
      match HeaderLabelEnd(t, i)
      case Some(j) => if j < |t| && IsSpace(t[j]) then Some(j) else None
      case None => None
  }

  /** The negative lookahead of the body: a clause ends before a line that
      starts the next label (`\s*\d+\.`, or a header at the very line start). */
  predicate StartsNextLabel(kind: LineKind, t: string, p: nat)
    requires p <= |t|
  {
    match kind
    case Numbered =>
      var i := Skip(t, p, Space);
      var d := Skip(t, i, Digit);
      d > i && d < |t| && t[d] == '.'
    case Header => HeaderLabelEnd(t, p).Some?
  }

  /** `(?:\n(?!lookahead)[^\n]*)*` from `e`, the end of the text or a '\n':
      whole lines are added until one starts the next label. */
  function ExtendBody(kind: LineKind, t: string, e: nat): (r: nat)
    requires e <= |t| && (e == |t| || t[e] == '\n')
    ensures e <= r <= |t|
    ensures r == |t| || (t[r] == '\n' && StartsNextLabel(kind, t, r + 1))
    decreases |t| - e
  {
    if e == |t| || StartsNextLabel(kind, t, e + 1) then e
    else ExtendBody(kind, t, LineEnd(t, e + 1))
  }

  /** `\s+([^\n]+(?:…)*)` from `j`, where `t[j]` is a space. The greedy `\s+`
      takes the whole run of spaces; when that run reaches the end of the text,
      backtracking hands the last non-newline character of the run to
      `[^\n]+`, and there is no match if the run holds none. */
  function BodyEnd(kind: LineKind, t: string, j: nat): (r: Option<nat>)
    requires j < |t| && IsSpace(t[j])
    ensures r.Some? ==> j < r.value <= |t|
  {
    var w := Skip(t, j, Space);
    if w < |t| then Some(ExtendBody(kind, t, LineEnd(t, w)))
    else match LastNonNewline(t, j + 1, |t|)
      case Some(q) => Some(ExtendBody(kind, t, q + 1))
      case None => None
  }

  /** Where the match that starts exactly at `s` ends. `(?:^|\n)` allows only
      the start of the text or a newline, and `\s*` then skips to the label. */
  function MatchAt(kind: LineKind, t: string, s: nat): (r: Option<nat>)
    requires s <= |t|
    ensures r.Some? ==> s < r.value <= |t|
  {
    if s != 0 && !(s < |t| && t[s] == '\n') then None
    else match LabelEnd(kind, t, Skip(t, s, Space))
      case Some(j) => BodyEnd(kind, t, j)
      case None => None
  }

  /** One of the two patterns as a matcher over `t`. */
  function Matcher(kind: LineKind, t: string): (m: nat -> Option<nat>)
    ensures Advances(m, |t|)
    ensures forall s: nat :: s <= |t| ==> m(s) == MatchAt(kind, t, s)
  {
    (s: nat) => if s <= |t| then MatchAt(kind, t, s) else None
  }

  /** Text without a digit or capital letter after its spaces has no match. */
  lemma NoMatchInBlankText(kind: LineKind, t: string)
    requires AllSpace(t)
    ensures MatchAllFrom(Matcher(kind, t), |t|, 0) == []
  {
    forall s | 0 <= s <= |t| ensures MatchAt(kind, t, s).None? {
      assert Skip(t, s, Space) == |t|;
    }
    NoMatchNoSpans(Matcher(kind, t), |t|, 0);
  }

  // ---------------------------------------------------------------------------
  // The three strategies
  // ---------------------------------------------------------------------------

  function NumberedMatches(t: string): (r: seq<Span>)
    ensures forall k :: 0 <= k < |r| ==> r[k].start < r[k].end <= |t|
  {
    MatchAllFrom(Matcher(Numbered, t), |t|, 0)
  }

  function HeaderMatches(t: string): (r: seq<Span>)
    ensures forall k :: 0 <= k < |r| ==> r[k].start < r[k].end <= |t|
  {
    MatchAllFrom(Matcher(Header, t), |t|, 0)
  }

  /** `match[0].trim()` for each match. */
  function MatchTexts(t: string, ms: seq<Span>): (r: seq<string>)
    requires forall k :: 0 <= k < |ms| ==> ms[k].start <= ms[k].end <= |t|
    ensures |r| == |ms|
  {
    seq(|ms|, k requires 0 <= k < |ms| => Trim(t[ms[k].start..ms[k].end]))
  }

  /** The paragraph filter: the trimmed text is longer than 50 characters. */
  predicate IsLongParagraph(p: string) {
    |Trim(p)| > 50
  }

  /** `trim` of each piece. */
  function Trimmed(pieces: seq<string>): (r: seq<string>)
    ensures |r| == |pieces|
  {
    seq(|pieces|, k requires 0 <= k < |pieces| => Trim(pieces[k]))
  }

  /** The paragraph fallback: `text.split(/\n\n+/)`, long pieces only, each
      trimmed when it is pushed. */
  function Paragraphs(t: string): seq<string> {
    Trimmed(Filter(Split(t, BlankLines), IsLongParagraph))
  }

  /** The first strategy with more than three matches wins; paragraphs are the
      fallback whatever their number. */
  function ChosenStrategy(t: string): (r: Strategy)
    ensures r == ByNumber <==> |NumberedMatches(t)| > 3
    ensures r == ByHeader <==> |NumberedMatches(t)| <= 3 && |HeaderMatches(t)| > 3
    ensures r == ByParagraph <==> |NumberedMatches(t)| <= 3 && |HeaderMatches(t)| <= 3
  {
    if |NumberedMatches(t)| > 3 then ByNumber
    else if |HeaderMatches(t)| > 3 then ByHeader
    else ByParagraph
  }

  /** The texts of the clauses: the output of the chosen strategy alone. */
  function ClauseTexts(t: string): seq<string> {
    match ChosenStrategy(t)
    case ByNumber => MatchTexts(t, NumberedMatches(t))
    case ByHeader => MatchTexts(t, HeaderMatches(t))
    case ByParagraph => Paragraphs(t)
  }

  /** Texts numbered as clauses: ids from 1, positions from 0. */
  function Numbering(texts: seq<string>): (r: seq<Clause>)
    ensures |r| == |texts|
  {
    seq(|texts|, k requires 0 <= k < |texts| => Clause(k + 1, texts[k], k))
  }

  /** The clauses `parseIntoClauses` returns for `t`. */
  function Clauses(t: string): seq<Clause> {
    Numbering(ClauseTexts(t))
  }

  // ---------------------------------------------------------------------------
  // parseIntoClauses
  // ---------------------------------------------------------------------------

  /** One strategy's `forEach` loop: push each text with the next id from the
      counter and its index as position. */
  method PushNumbered(texts: seq<string>) returns (clauses: seq<Clause>)
    ensures clauses == Numbering(texts)
  {
    clauses := [];
    var clauseId := 1;
    var index := 0;
    while index < |texts|
      invariant 0 <= index <= |texts|
      invariant clauseId == index + 1
      invariant |clauses| == index
      invariant forall k :: 0 <= k < index ==> clauses[k] == Clause(k + 1, texts[k], k)
    {
      clauses := clauses + [Clause(clauseId, texts[index], index)];
      clauseId := clauseId + 1;
      index := index + 1;
    }
  }

  /** `parseIntoClauses`: each strategy returns early when it has more than
      three matches. */
  method ParseIntoClauses(text: string) returns (clauses: seq<Clause>)
    ensures clauses == Clauses(text)
  {
    var matches := MatchAllFrom(Matcher(Numbered, text), |text|, 0);
    if |matches| > 3 {
      var texts := MatchTexts(text, matches);
      assert texts == ClauseTexts(text);
      clauses := PushNumbered(texts);
      return;
    }

    matches := MatchAllFrom(Matcher(Header, text), |text|, 0);
    if |matches| > 3 {
      var texts := MatchTexts(text, matches);
      assert texts == ClauseTexts(text);
      clauses := PushNumbered(texts);
      return;
    }

    var paragraphs := Filter(Split(text, BlankLines), IsLongParagraph);
    assert Trimmed(paragraphs) == ClauseTexts(text);
    clauses := PushNumbered(Trimmed(paragraphs));
  }

  // ---------------------------------------------------------------------------
  // Properties
  // ---------------------------------------------------------------------------

  /** Ids run 1..n and positions 0..n-1 in output order. */
  lemma ClauseIdsSequential(t: string)
    ensures forall k :: 0 <= k < |Clauses(t)| ==> Clauses(t)[k].id == k + 1 && Clauses(t)[k].position == k
    ensures forall i, j :: 0 <= i < j < |Clauses(t)| ==> Clauses(t)[i].id < Clauses(t)[j].id
  {
  }

  /** A paragraph whose trimmed text has 50 characters or fewer is dropped
      without disturbing the others. */
  lemma ParagraphDropped(a: seq<string>, p: string, b: seq<string>)
    requires |Trim(p)| <= 50
    ensures Filter(a + [p] + b, IsLongParagraph) == Filter(a, IsLongParagraph) + Filter(b, IsLongParagraph)
  {
    FilterMiddle(a, p, b, IsLongParagraph);
  }

  /** A longer paragraph is kept in its place. */
  lemma ParagraphKept(a: seq<string>, p: string, b: seq<string>)
    requires |Trim(p)| > 50
    ensures Filter(a + [p] + b, IsLongParagraph) == Filter(a, IsLongParagraph) + [p] + Filter(b, IsLongParagraph)
  {
    FilterMiddle(a, p, b, IsLongParagraph);
  }

  /** Every paragraph clause text is trimmed and longer than 50 characters. */
  lemma LongParagraphsAreLongAndTrimmed(t: string)
    ensures forall k :: 0 <= k < |Paragraphs(t)| ==>
      |Paragraphs(t)[k]| > 50 && Trim(Paragraphs(t)[k]) == Paragraphs(t)[k]
  {
    var kept := Filter(Split(t, BlankLines), IsLongParagraph);
    FilterMembers(Split(t, BlankLines), IsLongParagraph);
    forall k | 0 <= k < |kept| ensures |Trim(kept[k])| > 50 && Trim(Trim(kept[k])) == Trim(kept[k]) {
      assert kept[k] in kept;
      TrimIdempotent(kept[k]);
    }
  }

  /** Pieces made only of spaces are all dropped. */
  lemma {:induction false} BlankParagraphsDropped(pieces: seq<string>)
    requires forall k :: 0 <= k < |pieces| ==> AllSpace(pieces[k])
    ensures Filter(pieces, IsLongParagraph) == []
    decreases |pieces|
  {
    if pieces != [] {
      TrimEmpty(pieces[0]);
      BlankParagraphsDropped(pieces[1..]);
    }
  }

  /** Every clause text equals its trimmed form. */
  lemma ClausesAreTrimmed(t: string)
    ensures forall k :: 0 <= k < |Clauses(t)| ==> Trim(Clauses(t)[k].text) == Clauses(t)[k].text
  {
    var texts := ClauseTexts(t);
    match ChosenStrategy(t)
    case ByParagraph =>
      LongParagraphsAreLongAndTrimmed(t);
    case ByNumber =>
      var ms := NumberedMatches(t);
      forall k | 0 <= k < |texts| ensures Trim(texts[k]) == texts[k] {
        TrimIdempotent(t[ms[k].start..ms[k].end]);
      }
    case ByHeader =>
      var ms := HeaderMatches(t);
      forall k | 0 <= k < |texts| ensures Trim(texts[k]) == texts[k] {
        TrimIdempotent(t[ms[k].start..ms[k].end]);
      }
  }

  /** In the paragraph fallback every clause is longer than 50 characters. */
  lemma ParagraphClausesAreLong(t: string)
    requires ChosenStrategy(t) == ByParagraph
    ensures forall k :: 0 <= k < |Clauses(t)| ==> |Clauses(t)[k].text| > 50
  {
    LongParagraphsAreLongAndTrimmed(t);
  }

  /** Empty or whitespace-only text yields no clauses. */
  lemma BlankTextHasNoClauses(t: string)
    requires AllSpace(t)
    ensures Clauses(t) == []
  {
    NoMatchInBlankText(Numbered, t);
    NoMatchInBlankText(Header, t);
    assert t[0..] == t;
    SplitFromOfSpaces(t, BlankLines, 0, 0);
    BlankParagraphsDropped(Split(t, BlankLines));
  }

  /** Both line patterns' matches are real matches, in text order, and do
      not overlap; no possible match is skipped. */
  lemma ClauseSpansOrdered(t: string)
    ensures AllMatch(Matcher(Numbered, t), NumberedMatches(t))
    ensures Ordered(NumberedMatches(t))
    ensures NoneSkipped(Matcher(Numbered, t), |t|, 0, NumberedMatches(t))
    ensures AllMatch(Matcher(Header, t), HeaderMatches(t))
    ensures Ordered(HeaderMatches(t))
    ensures NoneSkipped(Matcher(Header, t), |t|, 0, HeaderMatches(t))
  {
    MatchAllFromIsMatchAll(Matcher(Numbered, t), |t|, 0);
    MatchAllFromIsMatchAll(Matcher(Header, t), |t|, 0);
  }
}
