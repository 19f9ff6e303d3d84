/** The parts of JavaScript's string semantics the analysis pipeline relies on:
    the `\s` character class (also the set `trim` removes), ASCII lower-casing,
    `indexOf` / `includes`, `split` on a run of separators, `join`, and the
    decimal printing and parsing of non-negative integers. */
module JsText {
  import opened Wrappers

  // ---------------------------------------------------------------------------
  // Character classes
  // ---------------------------------------------------------------------------

  /** JavaScript's `\s`: WhiteSpace and LineTerminator code points. `trim`
      removes exactly these characters. */
  predicate IsSpace(c: char) {
    c == ' ' || c == '\t' || c == '\n' || c == '\r' || c == '\U{000B}' || c == '\U{000C}'
    || c == '\U{00A0}' || c == '\U{1680}' || ('\U{2000}' <= c <= '\U{200A}')
    || c == '\U{2028}' || c == '\U{2029}' || c == '\U{202F}' || c == '\U{205F}'
    || c == '\U{3000}' || c == '\U{FEFF}'
  }

  /** `\d` */
  predicate IsDigit(c: char) { '0' <= c <= '9' }

  /** `[A-Z]` */
  predicate IsUpper(c: char) { 'A' <= c <= 'Z' }

  /** `[A-Za-z]` */
  predicate IsLetter(c: char) { 'A' <= c <= 'Z' || 'a' <= c <= 'z' }

  /** The character classes the scanners skip over. */
  datatype CharClass = Space | Digit | UpperOrSpace | Newline

  predicate InClass(c: char, cls: CharClass) {
    match cls
    case Space => IsSpace(c)
    case Digit => IsDigit(c)
    case UpperOrSpace => IsUpper(c) || IsSpace(c)
    case Newline => c == '\n'
  }

  /** The end of the longest run of `cls` characters starting at `i`: what a
      greedy `cls*` consumes. */
  function Skip(s: string, i: nat, cls: CharClass): (j: nat)
    requires i <= |s|
    ensures i <= j <= |s|
    ensures j < |s| ==> !InClass(s[j], cls)
    decreases |s| - i
  {
    if i < |s| && InClass(s[i], cls) then Skip(s, i + 1, cls) else i
  }

  /** Everything `Skip` passes over is in the class. */
  lemma {:induction false} SkipRun(s: string, i: nat, cls: CharClass)
    requires i <= |s|
    ensures forall k :: i <= k < Skip(s, i, cls) ==> InClass(s[k], cls)
    decreases |s| - i
  {
    if i < |s| && InClass(s[i], cls) {
      SkipRun(s, i + 1, cls);
    }
  }

  /** The index of the first '\n' at or after `i`, or `|s|`: where `[^\n]*` stops. */
  function LineEnd(s: string, i: nat): (e: nat)
    requires i <= |s|
    ensures i <= e <= |s|
    ensures e < |s| ==> s[e] == '\n'
    decreases |s| - i
  {
    if i == |s| || s[i] == '\n' then i else LineEnd(s, i + 1)
  }

  /** Everything `LineEnd` passes over is on the same line. */
  lemma {:induction false} LineEndRun(s: string, i: nat)
    requires i <= |s|
    ensures forall k :: i <= k < LineEnd(s, i) ==> s[k] != '\n'
    decreases |s| - i
  {
    if i < |s| && s[i] != '\n' {
      LineEndRun(s, i + 1);
    }
  }

  /** The last index in `[lo, hi)` that does not hold '\n'. */
  function LastNonNewline(s: string, lo: nat, hi: nat): (r: Option<nat>)
    requires lo <= hi <= |s|
    ensures r.Some? ==> lo <= r.value < hi && s[r.value] != '\n'
    ensures r.Some? && r.value + 1 < hi ==> s[r.value + 1] == '\n'
    decreases hi - lo
  {
    if hi == lo then None
    else if s[hi - 1] != '\n' then Some(hi - 1)
    else LastNonNewline(s, lo, hi - 1)
  }

  // ---------------------------------------------------------------------------
  // Lower-casing (ASCII only)
  // ---------------------------------------------------------------------------

  function LowerChar(c: char): char {
    if IsUpper(c) then (c as int + 32) as char else c
  }

  /** `toLowerCase`, restricted to the ASCII letters. */
  function Lower(s: string): (r: string)
    ensures |r| == |s|
    decreases |s|
  {
    if s == [] then [] else [LowerChar(s[0])] + Lower(s[1..])
  }

  /** Lower-casing works character by character. */
  lemma {:induction false} LowerAt(s: string)
    ensures forall i :: 0 <= i < |s| ==> Lower(s)[i] == LowerChar(s[i])
    decreases |s|
  {
    if s != [] {
      LowerAt(s[1..]);
    }
  }

  // ---------------------------------------------------------------------------
  // trim
  // ---------------------------------------------------------------------------

  predicate AllSpace(s: string) {
    forall k :: 0 <= k < |s| ==> IsSpace(s[k])
  }

  /** The end of `s[..j]` once trailing spaces are dropped. */
  function TrimBack(s: string, j: nat): (k: nat)
    requires j <= |s|
    ensures k <= j
    ensures k > 0 ==> !IsSpace(s[k - 1])
    decreases j
  {
    if j == 0 || !IsSpace(s[j - 1]) then j else TrimBack(s, j - 1)
  }

  /** Everything `TrimBack` cuts off is a space. */
  lemma {:induction false} TrimBackRun(s: string, j: nat)
    requires j <= |s|
    ensures forall m :: TrimBack(s, j) <= m < j ==> IsSpace(s[m])
    decreases j
  {
    if j > 0 && IsSpace(s[j - 1]) {
      TrimBackRun(s, j - 1);
    }
  }

  /** `String.prototype.trim`: the text between the first and the last
      non-space character. */
  function Trim(s: string): (r: string)
    ensures |r| <= |s|
  {
    var a := Skip(s, 0, Space);
    var b := TrimBack(s, |s|);
    if a < b then s[a..b] else []
  }

  /** `trim` leaves nothing exactly when the text is all spaces. */
  lemma TrimEmpty(s: string)
    ensures Trim(s) == [] <==> AllSpace(s)
  {
    SkipRun(s, 0, Space);
    TrimBackRun(s, |s|);
    if !AllSpace(s) {
      var x :| 0 <= x < |s| && !IsSpace(s[x]);
      assert Skip(s, 0, Space) <= x < TrimBack(s, |s|);
    }
  }

  /** Otherwise it leaves a slice that neither starts nor ends with a space,
      with only spaces cut off on either side. */
  lemma TrimShape(s: string)
    requires !AllSpace(s)
    ensures Trim(s) != []
    ensures !IsSpace(Trim(s)[0]) && !IsSpace(Trim(s)[|Trim(s)| - 1])
    ensures Trim(s) == s[Skip(s, 0, Space)..TrimBack(s, |s|)]
    ensures AllSpace(s[..Skip(s, 0, Space)]) && AllSpace(s[TrimBack(s, |s|)..])
  {
    TrimEmpty(s);
    SkipRun(s, 0, Space);
    TrimBackRun(s, |s|);
  }

  /** Trimming is idempotent: a trimmed text equals its own trimmed form. */
  lemma TrimIdempotent(s: string)
    ensures Trim(Trim(s)) == Trim(s)
  {
    TrimEmpty(s);
    var r := Trim(s);
    if r != [] {
      TrimShape(s);
      assert Skip(r, 0, Space) == 0;
      assert TrimBack(r, |r|) == |r|;
    }
  }

  // ---------------------------------------------------------------------------
  // indexOf / includes
  // ---------------------------------------------------------------------------

  /** `sub` occurs in `s` at index `i`. */
  predicate OccursAt(s: string, sub: string, i: nat) {
    i + |sub| <= |s| && AgreesFrom(s, sub, i, 0)
  }

  /** `s[i + m] == sub[m]` for every `m` from `k` on, compared one character
      at a time. */
  predicate AgreesFrom(s: string, sub: string, i: nat, k: nat)
    requires i + |sub| <= |s| && k <= |sub|
    decreases |sub| - k
  {
    k == |sub| || (s[i + k] == sub[k] && AgreesFrom(s, sub, i, k + 1))
  }

  lemma {:induction false} AgreesFromSlice(s: string, sub: string, i: nat, k: nat)
    requires i + |sub| <= |s| && k <= |sub|
    ensures AgreesFrom(s, sub, i, k) <==> s[i + k..i + |sub|] == sub[k..]
    decreases |sub| - k
  {
    if k < |sub| {
      AgreesFromSlice(s, sub, i, k + 1);
      assert s[i + k..i + |sub|] == [s[i + k]] + s[i + k + 1..i + |sub|];
      assert sub[k..] == [sub[k]] + sub[k + 1..];
    }
  }

  /** An occurrence is a slice equal to `sub`. */
  lemma OccursAtSlice(s: string, sub: string, i: nat)
    requires i + |sub| <= |s|
    ensures OccursAt(s, sub, i) <==> s[i..i + |sub|] == sub
  {
    AgreesFromSlice(s, sub, i, 0);
    assert sub[0..] == sub;
  }

  /** `s.indexOf(sub, i)`: the first occurrence at or after `i`, or -1. */
  function IndexOfFrom(s: string, sub: string, i: nat): (r: int)
    requires i <= |s|
    ensures r == -1 || i <= r <= |s| - |sub|
    decreases |s| - i
  {
    if i + |sub| > |s| then -1
    else if OccursAt(s, sub, i) then i
    else IndexOfFrom(s, sub, i + 1)
  }

  lemma {:induction false} IndexOfFromIsFirst(s: string, sub: string, i: nat)
    requires i <= |s|
    ensures IndexOfFrom(s, sub, i) != -1 ==> OccursAt(s, sub, IndexOfFrom(s, sub, i))
    ensures IndexOfFrom(s, sub, i) == -1 ==> forall k :: i <= k <= |s| ==> !OccursAt(s, sub, k)
    ensures IndexOfFrom(s, sub, i) != -1 ==> forall k :: i <= k < IndexOfFrom(s, sub, i) ==> !OccursAt(s, sub, k)
    decreases |s| - i
  {
    if i + |sub| <= |s| && !OccursAt(s, sub, i) {
      IndexOfFromIsFirst(s, sub, i + 1);
    }
  }

  /** `s.indexOf(sub)` */
  function IndexOf(s: string, sub: string): (r: int)
    ensures r == -1 || 0 <= r <= |s| - |sub|
  {
    IndexOfFrom(s, sub, 0)
  }

  /** `indexOf` finds the first occurrence, and -1 means there is none. */
  lemma IndexOfIsFirst(s: string, sub: string)
    ensures IndexOf(s, sub) == -1 <==> forall k :: 0 <= k <= |s| ==> !OccursAt(s, sub, k)
    ensures IndexOf(s, sub) != -1 ==>
      (OccursAt(s, sub, IndexOf(s, sub)) &&
       forall k :: 0 <= k < IndexOf(s, sub) ==> !OccursAt(s, sub, k))
  {
    IndexOfFromIsFirst(s, sub, 0);
  }

  /** `s.includes(sub)` */
  predicate Includes(s: string, sub: string) {
    IndexOf(s, sub) != -1
  }

  /** `s[i + m] == LowerChar(kw[m])` for every `m` from `k` on. */
  predicate AgreesLoweredFrom(s: string, kw: string, i: nat, k: nat)
    requires i + |kw| <= |s| && k <= |kw|
    decreases |kw| - k
  {
    k == |kw| || (s[i + k] == LowerChar(kw[k]) && AgreesLoweredFrom(s, kw, i, k + 1))
  }

  /** `s.includes(kw.toLowerCase())` searched from `i` on, lower-casing `kw`
      one character at a time as it is compared. */
  predicate IncludesLoweredFrom(s: string, kw: string, i: nat)
    decreases |s| - i
  {
    i + |kw| <= |s| && (AgreesLoweredFrom(s, kw, i, 0) || IncludesLoweredFrom(s, kw, i + 1))
  }

  /** `s.includes(kw.toLowerCase())` */
  predicate IncludesLowered(s: string, kw: string) {
    IncludesLoweredFrom(s, kw, 0)
  }

  lemma {:induction false} AgreesLoweredFromIsAgreesFrom(s: string, kw: string, i: nat, k: nat)
    requires i + |kw| <= |s| && k <= |kw|
    requires forall m :: 0 <= m < |kw| ==> Lower(kw)[m] == LowerChar(kw[m])
    ensures AgreesLoweredFrom(s, kw, i, k) <==> AgreesFrom(s, Lower(kw), i, k)
    decreases |kw| - k
  {
    if k < |kw| {
      AgreesLoweredFromIsAgreesFrom(s, kw, i, k + 1);
    }
  }

  lemma {:induction false} IncludesLoweredFromIsIndexOf(s: string, kw: string, i: nat)
    requires i <= |s|
    requires forall m :: 0 <= m < |kw| ==> Lower(kw)[m] == LowerChar(kw[m])
    ensures IncludesLoweredFrom(s, kw, i) <==> IndexOfFrom(s, Lower(kw), i) != -1
    decreases |s| - i
  {
    if i + |kw| <= |s| {
      AgreesLoweredFromIsAgreesFrom(s, kw, i, 0);
      if !AgreesLoweredFrom(s, kw, i, 0) {
        IncludesLoweredFromIsIndexOf(s, kw, i + 1);
      }
    }
  }

  /** The character-by-character search is `s.includes(kw.toLowerCase())`. */
  lemma IncludesLoweredIsIncludes(s: string, kw: string)
    ensures IncludesLowered(s, kw) <==> Includes(s, Lower(kw))
  {
    LowerAt(kw);
    IncludesLoweredFromIsIndexOf(s, kw, 0);
  }

  /** `a || b` on strings: the empty string counts as missing. */
  function OrElse(a: string, b: string): (r: string)
    ensures r == a || r == b
    ensures r == [] <==> a == [] && b == []
  {
    if a == [] then b else a
  }

  // ---------------------------------------------------------------------------
  // split / join
  // ---------------------------------------------------------------------------

  /** The two separators the pipeline splits on: `/\n\n+/` and `/\s+/`. */
  datatype Separator = BlankLines | Spaces

  /** Where a greedy match of the separator starting exactly at `q` ends. */
  function SeparatorEnd(s: string, sep: Separator, q: nat): (r: Option<nat>)
    requires q <= |s|
    ensures r.Some? ==> q < r.value <= |s|
  {
    match sep
    case BlankLines =>
      if q + 1 < |s| && s[q] == '\n' && s[q + 1] == '\n' then Some(Skip(s, q, Newline)) else None
    case Spaces =>
      if q < |s| && IsSpace(s[q]) then Some(Skip(s, q, Space)) else None
  }

  /** The loop of `String.prototype.split` with a regular expression: `p` is
      the start of the current piece and `q` the next position to try. */
  function SplitFrom(s: string, sep: Separator, p: nat, q: nat): (r: seq<string>)
    requires p <= q <= |s|
    ensures |r| >= 1
    decreases |s| - q
  {
    if q == |s| then [s[p..]]
    else match SeparatorEnd(s, sep, q)
      case Some(e) => [s[p..q]] + SplitFrom(s, sep, e, e)
      case None => SplitFrom(s, sep, p, q + 1)
  }

  function Split(s: string, sep: Separator): (r: seq<string>)
    ensures |r| >= 1
  {
    SplitFrom(s, sep, 0, 0)
  }

  /** Every piece of a split is made of characters of the text it came from,
      so a text of spaces only splits into pieces of spaces only. */
  lemma {:induction false} SplitFromOfSpaces(s: string, sep: Separator, p: nat, q: nat)
    requires p <= q <= |s|
    requires AllSpace(s[p..])
    ensures forall k :: 0 <= k < |SplitFrom(s, sep, p, q)| ==> AllSpace(SplitFrom(s, sep, p, q)[k])
    decreases |s| - q
  {
    if q < |s| {
      match SeparatorEnd(s, sep, q)
      case Some(e) =>
        assert AllSpace(s[e..]) by {
          forall k | 0 <= k < |s[e..]| ensures IsSpace(s[e..][k]) {
            assert s[e..][k] == s[p..][k + e - p];
          }
        }
        SplitFromOfSpaces(s, sep, e, e);
        assert AllSpace(s[p..q]) by {
          forall k | 0 <= k < q - p ensures IsSpace(s[p..q][k]) {
            assert s[p..q][k] == s[p..][k];
          }
        }
      case None =>
        SplitFromOfSpaces(s, sep, p, q + 1);
    }
  }

  /** `/\s+/` is greedy, so no word that `split(/\s+/)` returns holds a space. */
  lemma {:induction false} SplitFromSpacesHasNoSpace(s: string, p: nat, q: nat)
    requires p <= q <= |s|
    requires forall k :: p <= k < q ==> !IsSpace(s[k])
    ensures forall w, k :: w in SplitFrom(s, Spaces, p, q) && 0 <= k < |w| ==> !IsSpace(w[k])
    decreases |s| - q
  {
    if q < |s| {
      match SeparatorEnd(s, Spaces, q)
      case Some(e) =>
        SplitFromSpacesHasNoSpace(s, e, e);
        forall w, k | w in SplitFrom(s, Spaces, p, q) && 0 <= k < |w| ensures !IsSpace(w[k]) {
          if w == s[p..q] {
            assert w[k] == s[p + k];
          } else {
            assert w in SplitFrom(s, Spaces, e, e);
          }
        }
      case None =>
        SplitFromSpacesHasNoSpace(s, p, q + 1);
    }
  }

  /** `words.join(sep)` */
  function Join(words: seq<string>, sep: string): (r: string)
    decreases |words|
  {
    if |words| == 0 then []
    else if |words| == 1 then words[0]
    else words[0] + sep + Join(words[1..], sep)
  }

  // ---------------------------------------------------------------------------
  // Decimal numbers
  // ---------------------------------------------------------------------------

  predicate AllDigits(s: string) {
    forall k :: 0 <= k < |s| ==> IsDigit(s[k])
  }

  function DigitChar(d: nat): (c: char)
    requires d < 10
    ensures IsDigit(c)
  {
    ('0' as int + d) as char
  }

  /** The value of a string of decimal digits: `parseInt` on it. */
  function DigitsValue(s: string): nat
    requires AllDigits(s)
    decreases |s|
  {
    if s == [] then 0
    else DigitsValue(s[..|s| - 1]) * 10 + (s[|s| - 1] as int - '0' as int)
  }

  /** The shortest decimal form of `n`, as a template literal prints it. */
  function NatToString(n: nat): (r: string)
    ensures r != [] && AllDigits(r)
    ensures |r| > 1 ==> r[0] != '0'
    decreases n
  {
    if n < 10 then [DigitChar(n)] else NatToString(n / 10) + [DigitChar(n % 10)]
  }

  /** Parsing what was printed gives the number back. */
  lemma {:induction false} NatToStringRoundTrip(n: nat)
    ensures DigitsValue(NatToString(n)) == n
    decreases n
  {
    if n >= 10 {
      var r := NatToString(n);
      NatToStringRoundTrip(n / 10);
      assert r[..|r| - 1] == NatToString(n / 10);
    }
  }
}
