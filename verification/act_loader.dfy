/** The pure helpers of the statute loader: cutting the statute's text into
    sections at their headers, the short summary stored with each section,
    and cutting a text into chunks of a fixed number of words.

    The header pattern `/Section\s+(\d+[A-Za-z]?)\s*[\.—]\s*([^\n]+)/gi` is
    modelled by a scanner that follows the engine's greedy matching and
    backtracking. */
module ActLoader {
  import opened Wrappers
  import opened JsText
  import opened Sequences

  /** One statute section as the loader stores it. */
  datatype Section = Section(number: string, title: string, text: string, page: nat)

  /** Where one header match and its two groups lie in the text:
      `[start, end)` is the whole match, `[numberStart, numberEnd)` the
      section number and `[titleStart, end)` the title. */
  datatype HeaderMatch = HeaderMatch(start: nat, numberStart: nat, numberEnd: nat, titleStart: nat, end: nat)

  /** What the pattern guarantees of a match: its parts lie in order inside
      the text, it opens with "section" in any case, the number is digits
      with at most one letter at the end, and the title stays on one line. */
  predicate WellFormed(t: string, h: HeaderMatch) {
    h.start + 7 < h.numberStart < h.numberEnd <= h.titleStart < h.end <= |t| &&
    SectionWordAt(t, h.start) &&
    IsDigit(t[h.numberStart]) &&
    (forall c :: h.numberStart <= c < h.numberEnd - 1 ==> IsDigit(t[c])) &&
    (IsDigit(t[h.numberEnd - 1]) || IsLetter(t[h.numberEnd - 1])) &&
    (forall c :: h.titleStart <= c < h.end ==> t[c] != '\n')
  }

  /** Well-formed matches in text order, each ending before any later one
      starts. */
  predicate Chained(t: string, hs: seq<HeaderMatch>) {
    (forall k :: 0 <= k < |hs| ==> WellFormed(t, hs[k])) &&
    (forall i, j :: 0 <= i < j < |hs| ==> hs[i].end <= hs[j].start)
  }

  // ---------------------------------------------------------------------------
  // The header scanner
  // ---------------------------------------------------------------------------

  /** "section" in any mix of ASCII cases at `s` (the `i` flag). */
  predicate SectionWordAt(t: string, s: nat) {
    s + 7 <= |t| && forall k :: 0 <= k < 7 ==> LowerChar(t[s + k]) == "section"[k]
  }

  /** The em dash, one of the two separators after the number. */
  predicate IsNumberSeparator(c: char) {
    c == '.' || c == '\U{2014}'
  }

  /** The match of the header pattern that starts exactly at `s`.

      `\s+` must be followed by a digit, `\d+` by what is not a digit and the
      optional letter and `\s*` by the separator, so none of them ever has to
      give anything back. The `\s*` after the separator takes the whole run of
      spaces; when that run reaches the end of the text, backtracking hands
      its last non-newline character to `[^\n]+`, and there is no match if the
      run holds none. */
  function HeaderAt(t: string, s: nat): (r: Option<HeaderMatch>)
    requires s <= |t|
    ensures r.Some? ==> r.value.start == s && WellFormed(t, r.value)
  {
    if !SectionWordAt(t, s) then None
    else
      var a := Skip(t, s + 7, Space);
      if a == s + 7 || a == |t| || !IsDigit(t[a]) then None
      else
        var d := Skip(t, a, Digit);
        SkipRun(t, a, Digit);
        var e := if d < |t| && IsLetter(t[d]) then d + 1 else d;
        var q := Skip(t, e, Space);
        if q == |t| || !IsNumberSeparator(t[q]) then None
        else
          var w := Skip(t, q + 1, Space);
          if w < |t| then
            LineEndRun(t, w);
            Some(HeaderMatch(s, a, e, w, LineEnd(t, w)))
          else match LastNonNewline(t, q + 1, |t|)
            case Some(b) =>
              LineEndRun(t, b);
              Some(HeaderMatch(s, a, e, b, LineEnd(t, b)))
            case None => None
  }

  /** A scanner that reports, for each position, the match starting there. */
  ghost predicate Scans(at: nat -> Option<HeaderMatch>, t: string) {
    forall s: nat :: s <= |t| && at(s).Some? ==> at(s).value.start == s && WellFormed(t, at(s).value)
  }

  /** The header pattern as a scanner over `t`. */
  function HeaderScanner(t: string): (at: nat -> Option<HeaderMatch>)
    ensures Scans(at, t)
    ensures forall s: nat :: s <= |t| ==> at(s) == HeaderAt(t, s)
  {
    (s: nat) => if s <= |t| then HeaderAt(t, s) else None
  }

  /** `[...text.matchAll(regex)]` with `lastIndex` at `p`: each search
      reports the leftmost match from `lastIndex` and moves `lastIndex` to its
      end. This is the scan of `MatchAll.MatchAllFrom` again, because a header
      match carries the bounds of its two capture groups, not just its span. */
  function MatchesFrom(at: nat -> Option<HeaderMatch>, t: string, p: nat): (hs: seq<HeaderMatch>)
    requires p <= |t| && Scans(at, t)
    ensures Chained(t, hs)
    ensures hs != [] ==> p <= hs[0].start
    decreases |t| - p
  {
    match at(p)
    case Some(h) => [h] + MatchesFrom(at, t, h.end)
    case None => if p == |t| then [] else MatchesFrom(at, t, p + 1)
  }

  /** `[...text.matchAll(sectionRegex)]` */
  function HeaderMatches(t: string): (hs: seq<HeaderMatch>)
    ensures Chained(t, hs)
  {
    MatchesFrom(HeaderScanner(t), t, 0)
  }

  /** Every reported match is the scanner's match at its start. */
  lemma {:induction false} MatchesAreScanned(at: nat -> Option<HeaderMatch>, t: string, p: nat)
    requires p <= |t| && Scans(at, t)
    ensures forall k :: 0 <= k < |MatchesFrom(at, t, p)| ==>
      at(MatchesFrom(at, t, p)[k].start) == Some(MatchesFrom(at, t, p)[k])
    decreases |t| - p
  {
    var hs := MatchesFrom(at, t, p);
    match at(p)
    case Some(h) =>
      MatchesAreScanned(at, t, h.end);
      assert forall k :: 0 < k < |hs| ==> hs[k] == MatchesFrom(at, t, h.end)[k - 1];
    case None =>
      if p < |t| {
        MatchesAreScanned(at, t, p + 1);
      }
  }

  /** Every match from `p` on is reported or lies inside a reported one. */
  lemma {:induction false} NoneSkippedFrom(at: nat -> Option<HeaderMatch>, t: string, p: nat, s: nat)
    requires p <= s <= |t| && Scans(at, t) && at(s).Some?
    ensures exists k :: (0 <= k < |MatchesFrom(at, t, p)| &&
      MatchesFrom(at, t, p)[k].start <= s < MatchesFrom(at, t, p)[k].end)
    decreases |t| - p
  {
    var hs := MatchesFrom(at, t, p);
    match at(p)
    case Some(h) =>
      if s < h.end {
        assert hs[0].start <= s < hs[0].end;
      } else {
        NoneSkippedFrom(at, t, h.end, s);
        var rest := MatchesFrom(at, t, h.end);
        var k :| 0 <= k < |rest| && rest[k].start <= s < rest[k].end;
        assert hs[k + 1] == rest[k];
      }
    case None =>
      NoneSkippedFrom(at, t, p + 1, s);
  }

  /** A scanner that finds nothing from `p` on reports nothing. */
  lemma {:induction false} NothingScanned(at: nat -> Option<HeaderMatch>, t: string, p: nat)
    requires p <= |t| && Scans(at, t)
    requires forall s: nat :: p <= s <= |t| ==> at(s).None?
    ensures MatchesFrom(at, t, p) == []
    decreases |t| - p
  {
    if p < |t| {
      NothingScanned(at, t, p + 1);
    }
  }

  /** The reported matches are exactly the header pattern's matches at their
      starts, in text order without overlapping. */
  lemma HeaderMatchesAreMatches(t: string)
    ensures forall k :: 0 <= k < |HeaderMatches(t)| ==>
      HeaderAt(t, HeaderMatches(t)[k].start) == Some(HeaderMatches(t)[k])
    ensures forall i, j :: 0 <= i < j < |HeaderMatches(t)| ==>
      HeaderMatches(t)[i].end <= HeaderMatches(t)[j].start
  {
    MatchesAreScanned(HeaderScanner(t), t, 0);
  }

  /** Every header in the text is reported: each position where the pattern
      matches starts a reported match or lies inside one. */
  lemma NoHeaderSkipped(t: string, s: nat)
    requires s <= |t| && HeaderAt(t, s).Some?
    ensures exists k :: (0 <= k < |HeaderMatches(t)| &&
      HeaderMatches(t)[k].start <= s < HeaderMatches(t)[k].end)
  {
    var at := HeaderScanner(t);
    var hs := HeaderMatches(t);
    assert at(s).Some?;
    NoneSkippedFrom(at, t, 0, s);
    assert hs == MatchesFrom(at, t, 0);
    var k :| 0 <= k < |hs| && hs[k].start <= s < hs[k].end;
  }

  /** Text without any "section" word has no header matches. */
  lemma NoSectionWordNoMatches(t: string)
    requires forall s :: 0 <= s <= |t| ==> !SectionWordAt(t, s)
    ensures HeaderMatches(t) == []
  {
    NothingScanned(HeaderScanner(t), t, 0);
  }

  // ---------------------------------------------------------------------------
  // extractSections
  // ---------------------------------------------------------------------------

  /** Where section `k`'s text stops: at the next header, or at the end. */
  function NextStart(t: string, hs: seq<HeaderMatch>, k: nat): (r: nat)
    requires Chained(t, hs) && k < |hs|
    ensures hs[k].end <= r <= |t|
  {
    if k + 1 < |hs| then hs[k + 1].start else |t|
  }

  /** The section match `k` opens: `number` from the trimmed first group,
      `title` the trimmed second group, `text` the trimmed slice up to the
      next match, `page` from 2000 characters a page. */
  function SectionOf(t: string, hs: seq<HeaderMatch>, k: nat): Section
    requires Chained(t, hs) && k < |hs|
  {
    var h := hs[k];
    Section(
      "Section " + Trim(t[h.numberStart..h.numberEnd]),
      Trim(t[h.titleStart..h.end]),
      Trim(t[h.start..NextStart(t, hs, k)]),
      h.start / 2000 + 1)
  }

  /** Section `k`, for `k` inside the match list. */
  function SectionFn(t: string, hs: seq<HeaderMatch>): nat -> Section
    requires Chained(t, hs)
  {
    (k: nat) => if k < |hs| then SectionOf(t, hs, k) else Section("", "", "", 0)
  }

  /** The sections of all the matches, in match order. */
  function Sections(t: string, hs: seq<HeaderMatch>): (r: seq<Section>)
    requires Chained(t, hs)
  {
    Tabulate(|hs|, SectionFn(t, hs))
  }

  /** `extractSections`: one section per match, in match order. */
  method ExtractSections(text: string) returns (sections: seq<Section>)
    ensures sections == Sections(text, HeaderMatches(text))
  {
    var matches := HeaderMatches(text);
    sections := SectionsFor(text, matches);
  }

  /** The loop of `extractSections` over the matches. */
  method SectionsFor(text: string, matches: seq<HeaderMatch>) returns (sections: seq<Section>)
    requires Chained(text, matches)
    ensures sections == Sections(text, matches)
  {
    sections := [];
    ghost var f := SectionFn(text, matches);
    var i := 0;
    while i < |matches|
      invariant 0 <= i <= |matches|
      invariant sections == Tabulate(i, f)
    {
      var section := SectionAt(text, matches, i);
      assert section == f(i);
      sections := sections + [section];
      i := i + 1;
    }
  }

  /** Section `k` of the list is the one match `k` opens. */
  lemma SectionsAt(t: string, hs: seq<HeaderMatch>, k: nat)
    requires Chained(t, hs) && k < |hs|
    ensures |Sections(t, hs)| == |hs|
    ensures Sections(t, hs)[k] == SectionOf(t, hs, k)
  {
    TabulateAt(|hs|, SectionFn(t, hs), k);
  }

  /** The loop body: the fields of the section match `i` opens. */
  method SectionAt(text: string, matches: seq<HeaderMatch>, i: nat) returns (section: Section)
    requires Chained(text, matches) && i < |matches|
    ensures section == SectionOf(text, matches, i)
  {
    var current := matches[i];
    var sectionNumber := "Section " + Trim(text[current.numberStart..current.numberEnd]);
    var sectionTitle := Trim(text[current.titleStart..current.end]);
    var startIndex := current.start;
    var endIndex := if i + 1 < |matches| then matches[i + 1].start else |text|;
    assert endIndex == NextStart(text, matches, i);
    var sectionText := Trim(text[startIndex..endIndex]);
    var pageNumber := startIndex / 2000 + 1;
    section := Section(sectionNumber, sectionTitle, sectionText, pageNumber);
  }

  /** Text without any "section" word has no sections. */
  lemma NoHeaderNoSections(t: string)
    requires forall s :: 0 <= s <= |t| ==> !SectionWordAt(t, s)
    ensures Sections(t, HeaderMatches(t)) == []
  {
    NoSectionWordNoMatches(t);
  }

  /** Section `k`'s text starts with its own header and stops before the next
      one: it is a prefix of the slice from its match to the next match, and
      it holds at least "Section", a space and a digit. */
  lemma SectionTextIsItsSlice(t: string, hs: seq<HeaderMatch>, k: nat)
    requires Chained(t, hs) && k < |hs|
    ensures SectionOf(t, hs, k).text <= t[hs[k].start..NextStart(t, hs, k)]
    ensures |SectionOf(t, hs, k).text| >= 9
  {
    var h := hs[k];
    var slice := t[h.start..NextStart(t, hs, k)];
    var digit := h.numberStart - h.start;
    assert !IsSpace(slice[0]) && 7 < digit < |slice| && !IsSpace(slice[digit]) by {
      assert WellFormed(t, h);
      assert LowerChar(t[h.start + 0]) == "section"[0];
      assert slice[0] == t[h.start];
      assert slice[digit] == t[h.numberStart];
    }
    TrimKeepsFront(slice, digit);
  }

  /** A text that starts with a non-space keeps its front when trimmed, up to
      at least its last non-space character. */
  lemma TrimKeepsFront(s: string, d: nat)
    requires d < |s| && !IsSpace(s[0]) && !IsSpace(s[d])
    ensures Trim(s) <= s && |Trim(s)| > d
  {
    TrimBackRun(s, |s|);
    assert TrimBack(s, |s|) > d;
    assert Skip(s, 0, Space) == 0;
  }

  /** Sections do not overlap and come in text order: a section's slice ends
      where the next one's starts, and no later section starts before it. */
  lemma SectionsDoNotOverlap(t: string, hs: seq<HeaderMatch>, i: nat, j: nat)
    requires Chained(t, hs) && i < j < |hs|
    ensures hs[i].start < NextStart(t, hs, i) <= hs[j].start
  {
    assert hs[i].end <= hs[i + 1].start;
    assert WellFormed(t, hs[i]);
    if i + 1 < j {
      assert hs[i + 1].end <= hs[j].start;
      assert WellFormed(t, hs[i + 1]);
    }
  }

  /** Pages start at 1 and never go down from one section to a later one. */
  lemma PagesInOrder(t: string, hs: seq<HeaderMatch>, i: nat, j: nat)
    requires Chained(t, hs) && i <= j < |hs|
    ensures 1 <= SectionOf(t, hs, i).page <= SectionOf(t, hs, j).page
  {
    if i < j {
      SectionsDoNotOverlap(t, hs, i, j);
    }
    assert hs[i].start <= hs[j].start;
  }

  /** The number is "Section " and the captured digits with an optional
      letter, nothing trimmed away; the title is one line. */
  lemma NumberAndTitleShape(t: string, hs: seq<HeaderMatch>, k: nat)
    requires Chained(t, hs) && k < |hs|
    ensures var g := t[hs[k].numberStart..hs[k].numberEnd];
      SectionOf(t, hs, k).number == "Section " + g &&
      IsDigit(g[0]) &&
      (forall c :: 0 <= c < |g| - 1 ==> IsDigit(g[c])) &&
      (IsDigit(g[|g| - 1]) || IsLetter(g[|g| - 1]))
    ensures forall c :: 0 <= c < |SectionOf(t, hs, k).title| ==> SectionOf(t, hs, k).title[c] != '\n'
  {
    var h := hs[k];
    assert WellFormed(t, h);
    var g := t[h.numberStart..h.numberEnd];
    assert Trim(g) == g by {
      assert g[0] == t[h.numberStart];
      assert g[|g| - 1] == t[h.numberEnd - 1];
      assert Skip(g, 0, Space) == 0;
      assert TrimBack(g, |g|) == |g|;
    }
    assert forall c :: 0 <= c < |g| - 1 ==> IsDigit(g[c]) by {
      forall c | 0 <= c < |g| - 1 ensures IsDigit(g[c]) {
        assert g[c] == t[h.numberStart + c];
      }
    }
    var line := t[h.titleStart..h.end];
    assert forall c :: 0 <= c < |line| ==> line[c] != '\n' by {
      forall c | 0 <= c < |line| ensures line[c] != '\n' {
        assert line[c] == t[h.titleStart + c];
      }
    }
    OneLineTrimmed(line);
  }

  /** Trimming a text without newlines leaves a text without newlines. */
  lemma OneLineTrimmed(line: string)
    requires forall c :: 0 <= c < |line| ==> line[c] != '\n'
    ensures forall c :: 0 <= c < |Trim(line)| ==> Trim(line)[c] != '\n'
  {
    TrimEmpty(line);
    if !AllSpace(line) {
      TrimShape(line);
      var a := Skip(line, 0, Space);
      assert forall c :: 0 <= c < |Trim(line)| ==> Trim(line)[c] == line[a + c];
    }
  }

  // ---------------------------------------------------------------------------
  // generateSummary
  // ---------------------------------------------------------------------------

  /** `replace(/\n/g, ' ')` */
  function NewlinesToSpaces(s: string): (r: string)
    ensures |r| == |s|
  {
    seq(|s|, k requires 0 <= k < |s| => if s[k] == '\n' then ' ' else s[k])
  }

  /** `text.substring(0, 200).replace(/\n/g, ' ').trim() + '...'` */
  function GenerateSummary(text: string): (r: string)
    ensures 3 <= |r| <= 203
    ensures r[|r| - 3..] == "..."
  {
    var head := if |text| <= 200 then text else text[..200];
    Trim(NewlinesToSpaces(head)) + "..."
  }

  /** A summary is one line: every newline of the first 200 characters has
      become a space, and what precedes the dots is a trimmed piece of them. */
  lemma SummaryIsOneLine(text: string)
    ensures forall c :: 0 <= c < |GenerateSummary(text)| ==> GenerateSummary(text)[c] != '\n'
    ensures Trim(GenerateSummary(text)[..|GenerateSummary(text)| - 3]) == GenerateSummary(text)[..|GenerateSummary(text)| - 3]
  {
    var head := if |text| <= 200 then text else text[..200];
    var flat := NewlinesToSpaces(head);
    assert forall c :: 0 <= c < |flat| ==> flat[c] != '\n';
    OneLineTrimmed(flat);
    var body := Trim(flat);
    var r := GenerateSummary(text);
    assert r == body + "...";
    assert r[..|r| - 3] == body;
    TrimIdempotent(flat);
    forall c | 0 <= c < |r| ensures r[c] != '\n' {
      if c < |body| {
        assert r[c] == body[c];
      } else {
        assert r[c] == "..."[c - |body|];
      }
    }
  }

  /** A short one-line text with no spaces at either end is kept whole. */
  lemma ShortLineIsKept(text: string)
    requires |text| <= 200
    requires forall c :: 0 <= c < |text| ==> text[c] != '\n'
    requires text != [] && !IsSpace(text[0]) && !IsSpace(text[|text| - 1])
    ensures GenerateSummary(text) == text + "..."
  {
    assert NewlinesToSpaces(text) == text;
    assert Skip(text, 0, Space) == 0;
    assert TrimBack(text, |text|) == |text|;
  }

  // ---------------------------------------------------------------------------
  // chunkText
  // ---------------------------------------------------------------------------

  /** The word lists of the chunks: `maxWords` words at a time, the last
      chunk taking what is left. */
  function WordChunks(words: seq<string>, maxWords: nat): seq<seq<string>>
    requires maxWords > 0
    decreases |words|
  {
    if words == [] then []
    else if |words| <= maxWords then [words]
    else [words[..maxWords]] + WordChunks(words[maxWords..], maxWords)
  }

  /** `chunk.join(' ')` as one pushed element. */
  function JoinedWith(): seq<string> -> seq<string> {
    (chunk: seq<string>) => [Join(chunk, " ")]
  }

  /** The chunks `chunkText` returns for a list of words. */
  function Chunked(words: seq<string>, maxWords: nat): seq<string>
    requires maxWords > 0
  {
    FlatMap(WordChunks(words, maxWords), JoinedWith())
  }

  /** `chunkText`: split on `/\s+/`, then push `words.slice(i, i + maxWords)`
      joined by spaces for `i = 0, maxWords, 2·maxWords, …`. A `maxWords` of 0
      would never end the loop, so it is excluded. */
  method ChunkText(text: string, maxWords: nat) returns (chunks: seq<string>)
    requires maxWords > 0
    ensures chunks == Chunked(Split(text, Spaces), maxWords)
  {
    var words := Split(text, Spaces);
    chunks := [];
    ghost var done: seq<seq<string>> := [];
    var i := 0;
    while i < |words|
      invariant i <= |words| || i - maxWords < |words|
      invariant WordChunks(words, maxWords) == done + WordChunks(words[if i <= |words| then i else |words|..], maxWords)
      invariant chunks == FlatMap(done, JoinedWith())
      decreases |words| - i
    {
      var end := if i + maxWords <= |words| then i + maxWords else |words|;
      var chunk := words[i..end];
      assert WordChunks(words, maxWords) == (done + [chunk]) + WordChunks(words[end..], maxWords) by {
        ChunkStep(words, maxWords, i);
      }
      assert chunks + [Join(chunk, " ")] == FlatMap(done + [chunk], JoinedWith()) by {
        FlatMapAppend(done, [chunk], JoinedWith());
        FlatMapOne(chunk, JoinedWith());
      }
      chunks := chunks + [Join(chunk, " ")];
      done := done + [chunk];
      i := i + maxWords;
      assert words[if i <= |words| then i else |words|..] == words[end..];
    }
    assert WordChunks(words[|words|..], maxWords) == [];
    assert done + [] == done;
  }

  /** There is one chunk string per word chunk: chunk `k` is the words of
      word chunk `k` joined by single spaces. */
  lemma ChunkedIsJoined(words: seq<string>, maxWords: nat)
    requires maxWords > 0
    ensures |Chunked(words, maxWords)| == |WordChunks(words, maxWords)|
    ensures forall k :: 0 <= k < |WordChunks(words, maxWords)| ==>
      Chunked(words, maxWords)[k] == Join(WordChunks(words, maxWords)[k], " ")
  {
    FlatMapSingletons(WordChunks(words, maxWords), JoinedWith());
  }

  /** One turn of the loop takes the next chunk off the rest of the words. */
  lemma ChunkStep(words: seq<string>, maxWords: nat, i: nat)
    requires maxWords > 0 && i < |words|
    ensures var end := if i + maxWords <= |words| then i + maxWords else |words|;
      var next := if i + maxWords <= |words| then i + maxWords else |words|;
      WordChunks(words[i..], maxWords) == [words[i..end]] + WordChunks(words[next..], maxWords)
  {
    var rest := words[i..];
    if |rest| <= maxWords {
      assert words[|words|..] == [];
      assert rest == words[i..|words|];
    } else {
      assert rest[..maxWords] == words[i..i + maxWords];
      assert rest[maxWords..] == words[i + maxWords..];
    }
  }

  /** The chunks' words, one chunk after the other. */
  function Concat(chunks: seq<seq<string>>): seq<string>
    decreases |chunks|
  {
    if chunks == [] then [] else chunks[0] + Concat(chunks[1..])
  }

  /** Putting the chunks back together gives the word list back. */
  lemma {:induction false} ChunksRebuildWords(words: seq<string>, maxWords: nat)
    requires maxWords > 0
    ensures Concat(WordChunks(words, maxWords)) == words
    decreases |words|
  {
    if words != [] && |words| > maxWords {
      var chunks := WordChunks(words, maxWords);
      ChunksRebuildWords(words[maxWords..], maxWords);
      assert chunks[1..] == WordChunks(words[maxWords..], maxWords);
      assert words == words[..maxWords] + words[maxWords..];
    }
  }

  /** Every chunk but the last has exactly `maxWords` words; the last has
      between one and `maxWords`. */
  lemma {:induction false} ChunkSizes(words: seq<string>, maxWords: nat)
    requires maxWords > 0
    ensures forall k :: 0 <= k < |WordChunks(words, maxWords)| - 1 ==> |WordChunks(words, maxWords)[k]| == maxWords
    ensures WordChunks(words, maxWords) != [] ==>
      1 <= |WordChunks(words, maxWords)[|WordChunks(words, maxWords)| - 1]| <= maxWords
    decreases |words|
  {
    if words != [] && |words| > maxWords {
      var chunks := WordChunks(words, maxWords);
      var rest := WordChunks(words[maxWords..], maxWords);
      ChunkSizes(words[maxWords..], maxWords);
      assert chunks == [words[..maxWords]] + rest;
      forall k | 0 < k < |chunks| - 1 ensures |chunks[k]| == maxWords {
        assert chunks[k] == rest[k - 1];
      }
    }
  }

  /** There are ceil(#words / maxWords) chunks: just enough to hold every
      word, and one fewer would not. */
  lemma {:induction false} ChunkCount(words: seq<string>, maxWords: nat)
    requires maxWords > 0
    ensures |words| <= |WordChunks(words, maxWords)| * maxWords < |words| + maxWords
    decreases |words|
  {
    if |words| > maxWords {
      var c := |WordChunks(words[maxWords..], maxWords)|;
      ChunkCount(words[maxWords..], maxWords);
      assert (c + 1) * maxWords == c * maxWords + maxWords;
    }
  }

  /** Chunk `k` is `words[k·maxWords .. (k+1)·maxWords)`, cut short at the
      end of the list. */
  lemma {:induction false} ChunkAt(words: seq<string>, maxWords: nat, k: nat)
    requires maxWords > 0 && k < |WordChunks(words, maxWords)|
    ensures k * maxWords < |words|
    ensures WordChunks(words, maxWords)[k] ==
      words[k * maxWords..if (k + 1) * maxWords <= |words| then (k + 1) * maxWords else |words|]
    decreases k
  {
    var m := maxWords;
    if k == 0 {
      assert words != [];
      if |words| <= m {
        assert words[0..|words|] == words;
      }
    } else {
      assert |words| > m;
      var rest := words[m..];
      assert WordChunks(words, m) == [words[..m]] + WordChunks(rest, m);
      assert WordChunks(words, m)[k] == WordChunks(rest, m)[k - 1];
      ChunkAt(rest, m, k - 1);
      var lo := (k - 1) * m;
      var hi := k * m;
      MulStep(k - 1, m);
      MulStep(k, m);
      assert lo + m == hi && hi + m == (k + 1) * m;
      var end := if hi <= |rest| then hi else |rest|;
      assert end + m == if (k + 1) * m <= |words| then (k + 1) * m else |words|;
      SliceOfSuffix(words, m, lo, end);
    }
  }

  /** A slice of a suffix is a slice of the whole, shifted. */
  lemma SliceOfSuffix<T>(xs: seq<T>, m: nat, a: nat, b: nat)
    requires m <= |xs| && a <= b <= |xs| - m
    ensures xs[m..][a..b] == xs[a + m..b + m]
  {
  }

  /** `(k + 1)·m = k·m + m` */
  lemma MulStep(k: nat, m: nat)
    ensures k * m + m == (k + 1) * m
  {
  }

}
