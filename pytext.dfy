/**
 * The Python string built-ins the bot relies on: `str.isspace`, `str.strip`,
 * `sep.join`, `str.split(sep)`, `str(n)` for a non-negative `n` and `int(s)`
 * in base 10.
 */
module PyText {
  import opened Wrappers

  /** `c.isspace()`: the characters Python treats as whitespace. */
  predicate IsSpace(c: char) {
    var n := c as int;
    || 0x09 <= n <= 0x0D
    || 0x1C <= n <= 0x20
    || n == 0x85 || n == 0xA0 || n == 0x1680
    || 0x2000 <= n <= 0x200A
    || n == 0x2028 || n == 0x2029 || n == 0x202F || n == 0x205F || n == 0x3000
  }

  predicate AllSpace(s: string) {
    forall k :: 0 <= k < |s| ==> IsSpace(s[k])
  }

  /**
   * The whitespace `int()` skips around a number: `str.isspace` except the
   * separators U+001C to U+001F, which CPython's integer parser does not skip.
   */
  predicate IsIntSpace(c: char) {
    IsSpace(c) && !(0x1C <= c as int <= 0x1F)
  }

  /** The end of the run of `space` characters in `s` that starts at position `i`. */
  function SpaceRunEnd(s: string, i: nat, space: char -> bool): (n: nat)
    requires i <= |s|
    ensures i <= n <= |s|
    ensures forall k :: i <= k < n ==> space(s[k])
    ensures n == |s| || !space(s[n])
    decreases |s| - i
  {
    if i < |s| && space(s[i]) then SpaceRunEnd(s, i + 1, space) else i
  }

  /** The start of the run of `space` characters in `s[lo..j]` that ends at position `j`. */
  function SpaceRunStart(s: string, lo: nat, j: nat, space: char -> bool): (m: nat)
    requires lo <= j <= |s|
    ensures lo <= m <= j
    ensures forall k :: m <= k < j ==> space(s[k])
    ensures m == lo || !space(s[m - 1])
  {
    if lo < j && space(s[j - 1]) then SpaceRunStart(s, lo, j - 1, space) else j
  }

  /** `s` without the `space` characters on both of its ends. */
  function Trim(s: string, space: char -> bool): (r: string)
    ensures |r| <= |s|
    ensures r == "" || (!space(r[0]) && !space(r[|r| - 1]))
  {
    var i := SpaceRunEnd(s, 0, space);
    s[i..SpaceRunStart(s, i, |s|, space)]
  }

  /** A string whose ends are not `space` characters is its own trimming. */
  lemma TrimNoSpaceEnds(s: string, space: char -> bool)
    requires s == "" || (!space(s[0]) && !space(s[|s| - 1]))
    ensures Trim(s, space) == s
  {
    if s != "" {
      assert SpaceRunEnd(s, 0, space) == 0;
      assert SpaceRunStart(s, 0, |s|, space) == |s|;
    }
  }

  /**
   * `s.strip()`, that is `s.lstrip().rstrip()`: what remains once the
   * whitespace on both ends is gone.
   */
  function Strip(s: string): (r: string)
    ensures |r| <= |s|
    ensures r == "" || (!IsSpace(r[0]) && !IsSpace(r[|r| - 1]))
  {
    Trim(s, IsSpace)
  }

  /**
   * `strip()` keeps a slice of `s` and drops only whitespace around it, so
   * with its non-space ends it is the longest such slice.
   */
  lemma StripIsSlice(s: string)
    ensures exists i, j :: 0 <= i <= j <= |s| && Strip(s) == s[i..j]
                           && (forall k :: 0 <= k < i ==> IsSpace(s[k]))
                           && (forall k :: j <= k < |s| ==> IsSpace(s[k]))
  {
    var i := SpaceRunEnd(s, 0, IsSpace);
    var j := SpaceRunStart(s, i, |s|, IsSpace);
    assert Strip(s) == s[i..j];
  }

  /** A string whose ends are not whitespace is its own `strip()`. */
  lemma StripNoSpaceEnds(s: string)
    requires s == "" || (!IsSpace(s[0]) && !IsSpace(s[|s| - 1]))
    ensures Strip(s) == s
  {
    TrimNoSpaceEnds(s, IsSpace);
  }

  /** `not s.strip()` holds exactly of the all-whitespace strings. */
  lemma StripEmptyIffAllSpace(s: string)
    ensures Strip(s) == "" <==> AllSpace(s)
  {
    var i := SpaceRunEnd(s, 0, IsSpace);
    if i < |s| {
      assert SpaceRunStart(s, i, |s|, IsSpace) > i;
    }
  }

  /** `strip()` is idempotent. */
  lemma StripIdempotent(s: string)
    ensures Strip(Strip(s)) == Strip(s)
  {
    StripNoSpaceEnds(Strip(s));
  }

  /**
   * `sep.join(parts)` for a one-character separator: the pieces with one
   * separator between each two, so the result is empty only for no pieces
   * or a single empty one.
   */
  function Join(parts: seq<string>, sep: char): (r: string)
    ensures r == "" <==> |parts| == 0 || (|parts| == 1 && parts[0] == "")
  {
    if |parts| == 0 then ""
    else if |parts| == 1 then parts[0]
    else parts[0] + [sep] + Join(parts[1..], sep)
  }

  /** The joined text starts with the first piece and ends with the last. */
  lemma {:induction false} JoinEnds(parts: seq<string>, sep: char)
    requires |parts| >= 1 && forall k :: 0 <= k < |parts| ==> |parts[k]| >= 1
    ensures var j, last := Join(parts, sep), parts[|parts| - 1];
            |j| >= 1 && j[0] == parts[0][0] && j[|j| - 1] == last[|last| - 1]
  {
    if |parts| > 1 {
      var rest := Join(parts[1..], sep);
      JoinEnds(parts[1..], sep);
      var j := parts[0] + [sep] + rest;
      assert Join(parts, sep) == j;
      assert j[0] == parts[0][0];
      assert j[|j| - 1] == rest[|rest| - 1];
      assert parts[1..][|parts| - 2] == parts[|parts| - 1];
    }
  }

  /**
   * `s.split(sep)` for a one-character separator: never empty, no piece holds
   * the separator, and there are at least two pieces exactly when `s` holds it.
   */
  function Split(s: string, sep: char): (r: seq<string>)
    ensures |r| >= 1
    ensures forall k :: 0 <= k < |r| ==> sep !in r[k]
    ensures sep in s <==> |r| >= 2
  {
    if |s| == 0 then [""]
    else if s[0] == sep then [""] + Split(s[1..], sep)
    else
      var t := Split(s[1..], sep);
      assert s[0] in [s[0]] + t[0] ==> s[0] != sep;
      [[s[0]] + t[0]] + t[1..]
  }

  lemma {:induction false} SplitWithoutSep(a: string, sep: char)
    requires sep !in a
    ensures Split(a, sep) == [a]
  {
    if |a| > 0 {
      SplitWithoutSep(a[1..], sep);
      assert [a[0]] + a[1..] == a;
    }
  }

  /** Splitting at the first separator peels off the text before it. */
  lemma {:induction false} SplitAtFirstSep(a: string, sep: char, b: string)
    requires sep !in a
    ensures Split(a + [sep] + b, sep) == [a] + Split(b, sep)
  {
    var s := a + [sep] + b;
    if |a| == 0 {
      assert s[1..] == b;
    } else {
      assert s[1..] == a[1..] + [sep] + b;
      SplitAtFirstSep(a[1..], sep, b);
      assert [a[0]] + a[1..] == a;
    }
  }

  /** Joining the pieces of a split restores the string. */
  lemma {:induction false} JoinSplit(s: string, sep: char)
    ensures Join(Split(s, sep), sep) == s
  {
    if |s| > 0 {
      JoinSplit(s[1..], sep);
      var t := Split(s[1..], sep);
      if s[0] == sep {
        assert Split(s, sep) == [""] + t;
        if |t| == 1 {
          assert Join(t, sep) == t[0];
        }
        assert ([""] + t)[1..] == t;
      } else {
        var r := Split(s, sep);
        assert r == [[s[0]] + t[0]] + t[1..];
        if |t| == 1 {
          assert Join(r, sep) == [s[0]] + t[0];
        } else {
          assert r[1..] == t[1..];
          assert Join(t, sep) == t[0] + [sep] + Join(t[1..], sep);
        }
      }
    }
  }

  /** Splitting joined pieces that do not hold the separator gives them back. */
  lemma {:induction false} SplitJoin(parts: seq<string>, sep: char)
    requires |parts| >= 1
    requires forall k :: 0 <= k < |parts| ==> sep !in parts[k]
    ensures Split(Join(parts, sep), sep) == parts
  {
    if |parts| == 1 {
      SplitWithoutSep(parts[0], sep);
    } else {
      SplitJoin(parts[1..], sep);
      SplitAtFirstSep(parts[0], sep, Join(parts[1..], sep));
      assert [parts[0]] + parts[1..] == parts;
    }
  }

  predicate IsDigit(c: char) {
    '0' <= c <= '9'
  }

  predicate AllDigits(s: string) {
    forall k :: 0 <= k < |s| ==> IsDigit(s[k])
  }

  function DigitValue(c: char): nat
    requires IsDigit(c)
  {
    c as int - '0' as int
  }

  function DigitChar(d: nat): (c: char)
    requires d < 10
    ensures IsDigit(c) && DigitValue(c) == d
  {
    ('0' as int + d) as char
  }

  /** `str(n)` for `n >= 0`: decimal digits, with no leading zero. */
  function NatToString(n: nat): (r: string)
    ensures |r| >= 1 && AllDigits(r)
    ensures r[0] == '0' ==> n == 0
  {
    if n < 10 then [DigitChar(n)] else NatToString(n / 10) + [DigitChar(n % 10)]
  }

  /** The number a string of decimal digits spells (leading zeros allowed). */
  function DigitsValue(s: string): nat
    requires AllDigits(s)
  {
    if |s| == 0 then 0 else DigitsValue(s[..|s| - 1]) * 10 + DigitValue(s[|s| - 1])
  }

  lemma {:induction false} DigitsValueOfNat(n: nat)
    ensures DigitsValue(NatToString(n)) == n
  {
    if n >= 10 {
      var s := NatToString(n);
      assert s[..|s| - 1] == NatToString(n / 10);
      DigitsValueOfNat(n / 10);
    }
  }

  /**
   * `int(s)` in base 10: the whitespace `int()` skips around the number is
   * ignored, an optional `+` or `-` sign is followed by one or more ASCII
   * digits; anything else is the ValueError, here `None`. A number is read
   * only from text ending in a digit, and only a leading `-` makes it negative.
   */
  function ParseInt(s: string): (r: Option<int>)
    ensures r.Some? ==> var t := Trim(s, IsIntSpace);
                        && |t| >= 1 && IsDigit(t[|t| - 1])
                        && (r.value < 0 ==> t[0] == '-')
  {
    var t := Trim(s, IsIntSpace);
    if |t| > 0 && (t[0] == '-' || t[0] == '+') then
      var d := t[1..];
      if |d| > 0 && AllDigits(d) then
        var v: int := DigitsValue(d);
        assert d[|d| - 1] == t[|t| - 1];
        Some(if t[0] == '-' then -v else v)
      else
        None
    else if |t| > 0 && AllDigits(t) then
      Some(DigitsValue(t))
    else
      None
  }

  /** `int(str(n)) == n` for every `n >= 0`. */
  lemma ParseIntOfNat(n: nat)
    ensures ParseInt(NatToString(n)) == Some(n)
  {
    var s := NatToString(n);
    assert !IsIntSpace(s[0]) && !IsIntSpace(s[|s| - 1]);
    TrimNoSpaceEnds(s, IsIntSpace);
    DigitsValueOfNat(n);
  }

  /** `int("-" + str(n)) == -n`. */
  lemma ParseIntOfNegated(n: nat)
    ensures ParseInt("-" + NatToString(n)) == Some(0 - n as int)
  {
    var s := "-" + NatToString(n);
    assert !IsIntSpace(s[0]) && !IsIntSpace(s[|s| - 1]);
    TrimNoSpaceEnds(s, IsIntSpace);
    assert s[1..] == NatToString(n);
    DigitsValueOfNat(n);
  }

  /** `int(s)` raises for every string that is all whitespace, "" included. */
  lemma ParseIntOfBlank(s: string)
    requires AllSpace(s)
    ensures ParseInt(s) == None
  {
    var i := SpaceRunEnd(s, 0, IsIntSpace);
    var t := Trim(s, IsIntSpace);
    assert t == s[i..SpaceRunStart(s, i, |s|, IsIntSpace)];
    if |t| > 0 {
      assert t[0] == s[i] && IsSpace(t[0]);
      assert !IsDigit(t[0]);
    }
  }

  /**
   * `int()` does not skip the separators U+001C to U+001F, which
   * `str.isspace` counts as whitespace: `int("\x1c5")` raises.
   */
  lemma ParseIntOfSeparator()
    ensures ParseInt("\U{1C}5") == None
    ensures Strip("\U{1C}5") == "5"
  {
    var s := "\U{1C}5";
    assert !IsIntSpace(s[0]) && !IsIntSpace(s[1]);
    TrimNoSpaceEnds(s, IsIntSpace);
    assert !IsDigit(s[0]);
    assert IsSpace(s[0]) && !IsSpace(s[1]);
    assert SpaceRunEnd(s, 0, IsSpace) == 1;
    assert SpaceRunStart(s, 1, 2, IsSpace) == 2;
  }
}
