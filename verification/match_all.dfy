/** `String.prototype.matchAll` for a global regular expression, over any
    pattern given as a matcher: `m(s)` is the end of the match that starts
    exactly at `s`, if there is one. Each search starts at `lastIndex`, the end
    of the previous match, and reports the leftmost match from there. */
module MatchAll {
  import opened Wrappers

  /** One match: `text[start..end]` is `match[0]` and `start` is `match.index`. */
  datatype Span = Span(start: nat, end: nat)

  /** Matches of a pattern that never matches the empty string, inside a text
      of length `n`. */
  ghost predicate Advances(m: nat -> Option<nat>, n: nat) {
    forall s: nat :: s <= n && m(s).Some? ==> s < m(s).value <= n
  }

  /** `[...text.matchAll(pattern)]` with `lastIndex` at `p`. */
  function MatchAllFrom(m: nat -> Option<nat>, n: nat, p: nat): (r: seq<Span>)
    requires p <= n && Advances(m, n)
    ensures forall k :: 0 <= k < |r| ==> p <= r[k].start < r[k].end <= n
    decreases n - p
  {
    match m(p)
    case Some(e) => [Span(p, e)] + MatchAllFrom(m, n, e)
    case None => if p == n then [] else MatchAllFrom(m, n, p + 1)
  }

  /** Every reported span is a real match. */
  ghost predicate AllMatch(m: nat -> Option<nat>, ms: seq<Span>) {
    forall k :: 0 <= k < |ms| ==> m(ms[k].start) == Some(ms[k].end)
  }

  /** The matches come in text order without overlapping. */
  ghost predicate Ordered(ms: seq<Span>) {
    forall i, j :: 0 <= i < j < |ms| ==> ms[i].end <= ms[j].start
  }

  /** Every position from `p` on where a match starts is reported or lies
      inside a reported match. */
  ghost predicate NoneSkipped(m: nat -> Option<nat>, n: nat, p: nat, ms: seq<Span>) {
    forall s: nat :: p <= s <= n && m(s).Some? ==>
      exists k :: 0 <= k < |ms| && ms[k].start <= s < ms[k].end
  }

  lemma {:induction false} MatchAllFromAllMatch(m: nat -> Option<nat>, n: nat, p: nat)
    requires p <= n && Advances(m, n)
    ensures AllMatch(m, MatchAllFrom(m, n, p))
    decreases n - p
  {
    var ms := MatchAllFrom(m, n, p);
    match m(p)
    case Some(e) =>
      MatchAllFromAllMatch(m, n, e);
      var rest := MatchAllFrom(m, n, e);
      assert ms == [Span(p, e)] + rest;
      forall k | 0 <= k < |ms| ensures m(ms[k].start) == Some(ms[k].end) {
        if k > 0 { assert ms[k] == rest[k - 1]; }
      }
    case None =>
      if p < n {
        MatchAllFromAllMatch(m, n, p + 1);
      }
  }

  lemma {:induction false} MatchAllFromOrdered(m: nat -> Option<nat>, n: nat, p: nat)
    requires p <= n && Advances(m, n)
    ensures Ordered(MatchAllFrom(m, n, p))
    decreases n - p
  {
    var ms := MatchAllFrom(m, n, p);
    match m(p)
    case Some(e) =>
      MatchAllFromOrdered(m, n, e);
      var rest := MatchAllFrom(m, n, e);
      assert ms == [Span(p, e)] + rest;
      forall i, j | 0 <= i < j < |ms| ensures ms[i].end <= ms[j].start {
        assert ms[j] == rest[j - 1];
        if i > 0 { assert ms[i] == rest[i - 1]; }
      }
    case None =>
      if p < n {
        MatchAllFromOrdered(m, n, p + 1);
      }
  }

  lemma {:induction false} MatchAllFromNoneSkipped(m: nat -> Option<nat>, n: nat, p: nat)
    requires p <= n && Advances(m, n)
    ensures NoneSkipped(m, n, p, MatchAllFrom(m, n, p))
    decreases n - p
  {
    var ms := MatchAllFrom(m, n, p);
    match m(p)
    case Some(e) =>
      MatchAllFromNoneSkipped(m, n, e);
      var rest := MatchAllFrom(m, n, e);
      assert ms == [Span(p, e)] + rest;
      forall s | p <= s <= n && m(s).Some?
        ensures exists k :: 0 <= k < |ms| && ms[k].start <= s < ms[k].end
      {
        if s < e {
          assert ms[0].start <= s < ms[0].end;
        } else {
          var k :| 0 <= k < |rest| && rest[k].start <= s < rest[k].end;
          assert ms[k + 1] == rest[k];
        }
      }
    case None =>
      if p < n {
        MatchAllFromNoneSkipped(m, n, p + 1);
      }
  }

  /** A pattern that matches nowhere from `p` on gives no matches. */
  lemma {:induction false} NoMatchNoSpans(m: nat -> Option<nat>, n: nat, p: nat)
    requires p <= n && Advances(m, n)
    requires forall s: nat :: p <= s <= n ==> m(s).None?
    ensures MatchAllFrom(m, n, p) == []
    decreases n - p
  {
    if p < n {
      NoMatchNoSpans(m, n, p + 1);
    }
  }

  /** The three promises of `matchAll` together. */
  lemma MatchAllFromIsMatchAll(m: nat -> Option<nat>, n: nat, p: nat)
    requires p <= n && Advances(m, n)
    ensures AllMatch(m, MatchAllFrom(m, n, p))
    ensures Ordered(MatchAllFrom(m, n, p))
    ensures NoneSkipped(m, n, p, MatchAllFrom(m, n, p))
  {
    MatchAllFromAllMatch(m, n, p);
    MatchAllFromOrdered(m, n, p);
    MatchAllFromNoneSkipped(m, n, p);
  }
}
