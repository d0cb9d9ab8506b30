/**
 * The list comprehension `[x for x in s if keep(x)]` and the positions it
 * takes its elements from.
 */
module Filtering {

  /** `[x for x in s if keep(x)]`: no longer than `s`, and every element in it passes `keep`. */
  function Filter<T>(s: seq<T>, keep: T -> bool): (r: seq<T>)
    ensures |r| <= |s|
    ensures forall k :: 0 <= k < |r| ==> keep(r[k])
  {
    if |s| == 0 then [] else (if keep(s[0]) then [s[0]] else []) + Filter(s[1..], keep)
  }

  /** Filtering distributes over concatenation, so it keeps the order of `s`. */
  lemma {:induction false} FilterConcat<T>(a: seq<T>, b: seq<T>, keep: T -> bool)
    ensures Filter(a + b, keep) == Filter(a, keep) + Filter(b, keep)
  {
    if |a| == 0 {
      assert a + b == b;
    } else {
      var head := if keep(a[0]) then [a[0]] else [];
      assert (a + b)[0] == a[0] && (a + b)[1..] == a[1..] + b;
      assert Filter(a + b, keep) == head + Filter(a[1..] + b, keep);
      FilterConcat(a[1..], b, keep);
      assert head + (Filter(a[1..], keep) + Filter(b, keep))
          == (head + Filter(a[1..], keep)) + Filter(b, keep);
    }
  }

  /** An element is kept exactly when it occurs in `s` and passes `keep`. */
  lemma {:induction false} FilterMembers<T>(s: seq<T>, keep: T -> bool, x: T)
    ensures x in Filter(s, keep) <==> x in s && keep(x)
  {
    if |s| > 0 {
      FilterMembers(s[1..], keep, x);
      assert s == [s[0]] + s[1..];
    }
  }

  /** A sequence whose every element passes is its own filtering. */
  lemma {:induction false} FilterAllKept<T>(s: seq<T>, keep: T -> bool)
    requires forall k :: 0 <= k < |s| ==> keep(s[k])
    ensures Filter(s, keep) == s
  {
    if |s| > 0 {
      FilterAllKept(s[1..], keep);
    }
  }

  /** A sequence whose every element fails is filtered away entirely. */
  lemma {:induction false} FilterNoneKept<T>(s: seq<T>, keep: T -> bool)
    requires forall k :: 0 <= k < |s| ==> !keep(s[k])
    ensures Filter(s, keep) == []
  {
    if |s| > 0 {
      FilterNoneKept(s[1..], keep);
    }
  }

  /** A sequence with an element that fails `keep` loses at least that one. */
  lemma FilterShorter<T>(s: seq<T>, keep: T -> bool, k: nat)
    requires k < |s| && !keep(s[k])
    ensures |Filter(s, keep)| < |s|
  {
    assert s == s[..k] + [s[k]] + s[k + 1..];
    FilterConcat(s[..k] + [s[k]], s[k + 1..], keep);
    FilterConcat(s[..k], [s[k]], keep);
  }

  /** The filtering of `[x] + s`. */
  lemma FilterCons<T>(x: T, s: seq<T>, keep: T -> bool)
    ensures Filter([x] + s, keep) == (if keep(x) then [x] else []) + Filter(s, keep)
  {
    assert ([x] + s)[1..] == s;
  }

  /**
   * The position in `s` of the `n`-th kept element (`NthKeptSpec` says what
   * it is).
   */
  function NthKept<T>(s: seq<T>, keep: T -> bool, n: nat): (p: nat)
    requires n < |Filter(s, keep)|
    ensures n <= p < |s|
  {
    FilterCons(s[0], s[1..], keep);
    assert [s[0]] + s[1..] == s;
    if keep(s[0]) && n == 0 then 0
    else NthKept(s[1..], keep, if keep(s[0]) then n - 1 else n) + 1
  }

  /**
   * `NthKept(s, keep, n)` is where `Filter(s, keep)[n]` was taken from: that
   * element passes `keep`, and exactly `n` kept elements come before it.
   */
  lemma {:induction false} NthKeptSpec<T>(s: seq<T>, keep: T -> bool, n: nat)
    requires n < |Filter(s, keep)|
    ensures var p := NthKept(s, keep, n);
            s[p] == Filter(s, keep)[n] && keep(s[p]) && |Filter(s[..p], keep)| == n
  {
    assert s == [s[0]] + s[1..];
    FilterCons(s[0], s[1..], keep);
    var head := if keep(s[0]) then [s[0]] else [];
    assert Filter(s, keep) == head + Filter(s[1..], keep);
    if keep(s[0]) && n == 0 {
      assert s[..0] == [];
    } else {
      var m: nat := if keep(s[0]) then n - 1 else n;
      var q := NthKept(s[1..], keep, m);
      assert NthKept(s, keep, n) == q + 1;
      NthKeptSpec(s[1..], keep, m);
      assert s[q + 1] == s[1..][q];
      assert Filter(s, keep)[n] == Filter(s[1..], keep)[m];
      assert s[..q + 1] == [s[0]] + s[1..][..q];
      FilterCons(s[0], s[1..][..q], keep);
    }
  }

  /** Deleting the element at `NthKept(s, keep, n)` drops exactly entry `n` of the filtering. */
  lemma RemovingNthKept<T>(s: seq<T>, keep: T -> bool, n: nat)
    requires n < |Filter(s, keep)|
    ensures var p := NthKept(s, keep, n);
            Filter(s[..p] + s[p + 1..], keep) == Filter(s, keep)[..n] + Filter(s, keep)[n + 1..]
  {
    var p := NthKept(s, keep, n);
    var before, after := s[..p], s[p + 1..];
    NthKeptSpec(s, keep, n);
    FilterCons(s[p], [], keep);
    assert [s[p]] + [] == [s[p]];
    assert s == before + [s[p]] + after;
    FilterConcat(before + [s[p]], after, keep);
    FilterConcat(before, [s[p]], keep);
    FilterConcat(before, after, keep);
    var f := Filter(s, keep);
    assert f == Filter(before, keep) + [s[p]] + Filter(after, keep);
    assert f[..n] == Filter(before, keep);
    assert f[n + 1..] == Filter(after, keep);
  }

  /** When the first `n + 1` elements all pass `keep`, the `n`-th kept one is at position `n`. */
  lemma {:induction false} NthKeptOfKeptPrefix<T>(s: seq<T>, keep: T -> bool, n: nat)
    requires n < |Filter(s, keep)|
    requires forall k :: 0 <= k <= n ==> keep(s[k])
    ensures NthKept(s, keep, n) == n
  {
    if n > 0 {
      FilterCons(s[0], s[1..], keep);
      assert [s[0]] + s[1..] == s;
      assert keep(s[0]);
      assert forall k :: 0 <= k <= n - 1 ==> keep(s[1..][k]) by {
        forall k | 0 <= k <= n - 1 ensures keep(s[1..][k]) {
          assert s[1..][k] == s[k + 1];
        }
      }
      NthKeptOfKeptPrefix(s[1..], keep, n - 1);
    }
  }

  /**
   * The `n`-th kept element sits at position `n` exactly when the first
   * `n + 1` elements all pass `keep`.
   */
  lemma NthKeptIsIdentity<T>(s: seq<T>, keep: T -> bool, n: nat)
    requires n < |Filter(s, keep)|
    ensures NthKept(s, keep, n) == n <==> forall k :: 0 <= k <= n ==> keep(s[k])
  {
    if forall k :: 0 <= k <= n ==> keep(s[k]) {
      NthKeptOfKeptPrefix(s, keep, n);
    } else {
      var k: nat :| k <= n && !keep(s[k]);
      var p := NthKept(s, keep, n);
      if p == n {
        NthKeptSpec(s, keep, n);
        FilterShorter(s[..n + 1], keep, k);
      }
    }
  }
}
