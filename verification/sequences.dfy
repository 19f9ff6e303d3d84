/** The array methods the pipeline leans on, for any element type:
    `find`, `filter` and a `forEach` that pushes zero or more results per
    element. */
module Sequences {
  import opened Wrappers

  /** `xs.find(f)`: the first element satisfying `f`. */
  function FirstWhere<T>(xs: seq<T>, f: T -> bool): (r: Option<T>)
    ensures r.Some? ==> r.value in xs && f(r.value)
    decreases |xs|
  {
    if xs == [] then None
    else if f(xs[0]) then Some(xs[0])
    else FirstWhere(xs[1..], f)
  }

  /** `xs.filter(f)`: the elements satisfying `f`, in order. */
  function Filter<T>(xs: seq<T>, f: T -> bool): (r: seq<T>)
    ensures |r| <= |xs|
    decreases |xs|
  {
    if xs == [] then []
    else (if f(xs[0]) then [xs[0]] else []) + Filter(xs[1..], f)
  }

  /** What a `forEach` loop pushes when element `x` contributes `f(x)`. */
  function FlatMap<T, U>(xs: seq<T>, f: T -> seq<U>): seq<U>
    decreases |xs|
  {
    if xs == [] then []
    else FlatMap(xs[..|xs| - 1], f) + f(xs[|xs| - 1])
  }

  /** `[f(0), f(1), …, f(n-1)]`, built by pushing one element at a time. */
  function Tabulate<T>(n: nat, f: nat -> T): (r: seq<T>)
    ensures |r| == n
  {
    if n == 0 then [] else Tabulate(n - 1, f) + [f(n - 1)]
  }

  // ---------------------------------------------------------------------------
  // find
  // ---------------------------------------------------------------------------

  /** An element is found when it satisfies `f` and no earlier one does. */
  lemma {:induction false} FirstWhereFindsFirst<T>(xs: seq<T>, f: T -> bool, j: nat)
    requires j < |xs| && f(xs[j])
    requires forall q :: 0 <= q < j ==> !f(xs[q])
    ensures FirstWhere(xs, f) == Some(xs[j])
    decreases j
  {
    if j > 0 {
      forall q | 0 <= q < j - 1 ensures !f(xs[1..][q]) {
        assert xs[1..][q] == xs[q + 1];
      }
      FirstWhereFindsFirst(xs[1..], f, j - 1);
    }
  }

  /** A found element is preceded only by elements that fail `f`. */
  lemma {:induction false} FirstWhereHasNoEarlier<T>(xs: seq<T>, f: T -> bool)
    ensures FirstWhere(xs, f).Some? ==>
      exists j :: 0 <= j < |xs| && xs[j] == FirstWhere(xs, f).value &&
        forall q :: 0 <= q < j ==> !f(xs[q])
    decreases |xs|
  {
    if xs != [] && !f(xs[0]) {
      FirstWhereHasNoEarlier(xs[1..], f);
      if FirstWhere(xs, f).Some? {
        var j :| 0 <= j < |xs[1..]| && xs[1..][j] == FirstWhere(xs, f).value &&
          forall q :: 0 <= q < j ==> !f(xs[1..][q]);
        assert xs[j + 1] == xs[1..][j];
        forall q | 0 <= q < j + 1 ensures !f(xs[q]) {
          if q > 0 { assert xs[q] == xs[1..][q - 1]; }
        }
      }
    }
  }

  /** Nothing is found exactly when no element satisfies `f`. */
  lemma {:induction false} FirstWhereNone<T>(xs: seq<T>, f: T -> bool)
    ensures FirstWhere(xs, f).None? <==> forall q :: 0 <= q < |xs| ==> !f(xs[q])
    decreases |xs|
  {
    if xs != [] && !f(xs[0]) {
      FirstWhereNone(xs[1..], f);
      forall q | 0 < q < |xs| ensures xs[q] == xs[1..][q - 1] { }
    }
  }

  /** Removing an element that fails `f` does not change what is found. */
  lemma {:induction false} FirstWhereSkips<T>(xs: seq<T>, f: T -> bool, j: nat)
    requires j < |xs| && !f(xs[j])
    ensures FirstWhere(xs[..j] + xs[j + 1..], f) == FirstWhere(xs, f)
    decreases j
  {
    var rest := xs[..j] + xs[j + 1..];
    if j == 0 {
      assert rest == xs[1..];
    } else {
      FirstWhereSkips(xs[1..], f, j - 1);
      assert rest[0] == xs[0];
      assert rest[1..] == xs[1..][..j - 1] + xs[1..][j..];
    }
  }

  /** The scanning loop's step: an element that fails `f` is passed over. */
  lemma FirstWhereStep<T>(xs: seq<T>, f: T -> bool, j: nat)
    requires j < |xs|
    ensures FirstWhere(xs[j..], f) == if f(xs[j]) then Some(xs[j]) else FirstWhere(xs[j + 1..], f)
  {
    assert xs[j..][0] == xs[j];
    assert xs[j..][1..] == xs[j + 1..];
  }

  /** Element `k` of a tabulation is `f(k)`. */
  lemma {:induction false} TabulateAt<T>(n: nat, f: nat -> T, k: nat)
    requires k < n
    ensures Tabulate(n, f)[k] == f(k)
    decreases n
  {
    if k < n - 1 {
      TabulateAt(n - 1, f, k);
    }
  }

  // ---------------------------------------------------------------------------
  // filter
  // ---------------------------------------------------------------------------

  lemma {:induction false} FilterAppend<T>(a: seq<T>, b: seq<T>, f: T -> bool)
    ensures Filter(a + b, f) == Filter(a, f) + Filter(b, f)
    decreases |a|
  {
    if a == [] {
      assert a + b == b;
    } else {
      var ab := a + b;
      var head := if f(a[0]) then [a[0]] else [];
      assert ab != [] && ab[0] == a[0];
      assert ab[1..] == a[1..] + b;
      assert Filter(ab, f) == head + Filter(a[1..] + b, f);
      FilterAppend(a[1..], b, f);
      assert Filter(a, f) == head + Filter(a[1..], f);
    }
  }

  lemma FilterOne<T>(x: T, f: T -> bool)
    ensures Filter([x], f) == if f(x) then [x] else []
  {
    assert [x][1..] == [];
  }

  /** Filtering keeps or drops one element in the middle of others without
      disturbing them. */
  lemma FilterMiddle<T>(a: seq<T>, x: T, b: seq<T>, f: T -> bool)
    ensures f(x) ==> Filter(a + [x] + b, f) == Filter(a, f) + [x] + Filter(b, f)
    ensures !f(x) ==> Filter(a + [x] + b, f) == Filter(a, f) + Filter(b, f)
  {
    FilterAppend(a + [x], b, f);
    FilterAppend(a, [x], f);
    FilterOne(x, f);
    assert Filter(a, f) + [] == Filter(a, f);
  }

  /** The filter keeps exactly the elements satisfying `f`. */
  lemma {:induction false} FilterMembers<T>(xs: seq<T>, f: T -> bool)
    ensures forall x :: x in Filter(xs, f) <==> x in xs && f(x)
    decreases |xs|
  {
    if xs != [] {
      FilterMembers(xs[1..], f);
      assert xs == [xs[0]] + xs[1..];
    }
  }

  /** `sub` is `xs` with some elements left out, the rest in order. */
  ghost predicate IsSubsequence<T>(sub: seq<T>, xs: seq<T>)
    decreases |xs|
  {
    if sub == [] then true
    else if xs == [] then false
    else if sub[0] == xs[0] then IsSubsequence(sub[1..], xs[1..])
    else IsSubsequence(sub, xs[1..])
  }

  /** The filter keeps the order of the elements it keeps. */
  lemma {:induction false} FilterKeepsOrder<T>(xs: seq<T>, f: T -> bool)
    ensures IsSubsequence(Filter(xs, f), xs)
    decreases |xs|
  {
    if xs != [] {
      var rest := Filter(xs[1..], f);
      FilterKeepsOrder(xs[1..], f);
      if f(xs[0]) {
        assert Filter(xs, f) == [xs[0]] + rest;
        assert ([xs[0]] + rest)[1..] == rest;
      } else {
        assert Filter(xs, f) == rest;
        if rest != [] {
          // the first kept element satisfies f, so it is not xs[0]
          FilterMembers(xs[1..], f);
          assert rest[0] in rest;
          assert rest[0] != xs[0];
        }
      }
    }
  }

  // ---------------------------------------------------------------------------
  // forEach with push
  // ---------------------------------------------------------------------------

  lemma {:induction false} FlatMapAppend<T, U>(a: seq<T>, b: seq<T>, f: T -> seq<U>)
    ensures FlatMap(a + b, f) == FlatMap(a, f) + FlatMap(b, f)
    decreases |b|
  {
    if b == [] {
      assert a + b == a;
    } else {
      var b' := b[..|b| - 1];
      FlatMapAppend(a, b', f);
      assert (a + b)[..|a + b| - 1] == a + b';
      assert (a + b)[|a + b| - 1] == b[|b| - 1];
    }
  }

  /** The loop's step: one more element pushes its own results. */
  lemma FlatMapStep<T, U>(xs: seq<T>, f: T -> seq<U>, i: nat)
    requires i < |xs|
    ensures FlatMap(xs[..i + 1], f) == FlatMap(xs[..i], f) + f(xs[i])
  {
    assert xs[..i + 1][..i] == xs[..i];
  }

  /** A single element pushes just its own results. */
  lemma FlatMapOne<T, U>(x: T, f: T -> seq<U>)
    ensures FlatMap([x], f) == f(x)
  {
    assert [x][..0] == [];
  }

  /** When each element contributes exactly one result, result `k` is the
      one of element `k`. */
  lemma {:induction false} FlatMapSingletons<T, U>(xs: seq<T>, f: T -> seq<U>)
    requires forall x :: x in xs ==> |f(x)| == 1
    ensures |FlatMap(xs, f)| == |xs|
    ensures forall k :: 0 <= k < |xs| ==> FlatMap(xs, f)[k] == f(xs[k])[0]
    decreases |xs|
  {
    if xs != [] {
      var init := xs[..|xs| - 1];
      forall x | x in init ensures |f(x)| == 1 {
        assert x in xs;
      }
      FlatMapSingletons(init, f);
      assert xs[|xs| - 1] in xs;
      forall k | 0 <= k < |xs| ensures FlatMap(xs, f)[k] == f(xs[k])[0] {
        if k < |init| {
          assert xs[k] == init[k];
        }
      }
    }
  }

  /** When each element contributes at most one result, there are at most as
      many results as elements. */
  lemma {:induction false} FlatMapAtMostOne<T, U>(xs: seq<T>, f: T -> seq<U>)
    requires forall x :: x in xs ==> |f(x)| <= 1
    ensures |FlatMap(xs, f)| <= |xs|
    decreases |xs|
  {
    if xs != [] {
      assert xs[|xs| - 1] in xs;
      forall x | x in xs[..|xs| - 1] ensures |f(x)| <= 1 { }
      FlatMapAtMostOne(xs[..|xs| - 1], f);
    }
  }

  /** When each element contributes at most one result carrying the element's
      key, and the elements' keys increase, the results' keys increase too. */
  lemma {:induction false} FlatMapKeysIncrease<T, U>(xs: seq<T>, f: T -> seq<U>, key: T -> int, resultKey: U -> int)
    requires forall x :: x in xs ==> |f(x)| <= 1
    requires forall x, u :: x in xs && u in f(x) ==> resultKey(u) == key(x)
    requires forall i, j :: 0 <= i < j < |xs| ==> key(xs[i]) < key(xs[j])
    ensures forall u :: u in FlatMap(xs, f) ==> exists x :: x in xs && resultKey(u) == key(x)
    ensures forall i, j :: 0 <= i < j < |FlatMap(xs, f)| ==>
      resultKey(FlatMap(xs, f)[i]) < resultKey(FlatMap(xs, f)[j])
    decreases |xs|
  {
    if xs != [] {
      var init := xs[..|xs| - 1];
      var last := xs[|xs| - 1];
      assert forall x :: x in init ==> x in xs;
      FlatMapKeysIncrease(init, f, key, resultKey);
      var before := FlatMap(init, f);
      var all := FlatMap(xs, f);
      assert all == before + f(last);
      assert last in xs;
      forall u | u in before ensures resultKey(u) < key(last) {
        var x :| x in init && resultKey(u) == key(x);
        var i :| 0 <= i < |init| && init[i] == x;
        assert xs[i] == x;
      }
      forall i, j | 0 <= i < j < |all| ensures resultKey(all[i]) < resultKey(all[j]) {
        if j >= |before| {
          assert all[i] in before;
          assert all[j] in f(last);
        } else {
          assert all[i] == before[i] && all[j] == before[j];
        }
      }
    }
  }
}
