/**
 * The Python string built-ins the partitioner relies on, over `seq<char>`:
 * `str.replace`, `str.rjust`, `str(int)` for non-negative integers and the
 * `in` test for substrings, together with the facts the rest of the model
 * needs about them.
 */
module PyStr {

  /** True when `pat` occurs in `s` as a contiguous substring (Python `pat in s`). */
  predicate Occurs(pat: string, s: string)
    decreases |s|
  {
    |pat| <= |s| && (s[..|pat|] == pat || (|s| > 0 && Occurs(pat, s[1..])))
  }

  /**
   * `s.replace(pat, rep)` for a non-empty `pat`: every non-overlapping
   * occurrence of `pat`, found scanning left to right, is replaced by `rep`;
   * the text put in is not scanned again.
   */
  function Replace(s: string, pat: string, rep: string): string
    requires pat != []
    decreases |s|
  {
    if |s| < |pat| then s
    else if s[..|pat|] == pat then rep + Replace(s[|pat|..], pat, rep)
    else [s[0]] + Replace(s[1..], pat, rep)
  }

  /** `s.replace(pat, "")`; Python leaves `s` unchanged when `pat` is empty. */
  function RemoveAll(s: string, pat: string): string
  {
    if pat == [] then s else Replace(s, pat, [])
  }

  /** A string with no occurrence of the pattern is left as it is. */
  lemma {:induction false} ReplaceAbsent(s: string, pat: string, rep: string)
    requires pat != [] && !Occurs(pat, s)
    ensures Replace(s, pat, rep) == s
    decreases |s|
  {
    if |s| >= |pat| {
      assert s[..|pat|] != pat;
      ReplaceAbsent(s[1..], pat, rep);
      assert [s[0]] + s[1..] == s;
    }
  }

  /** A pattern holding a character that `s` lacks cannot occur in `s`. */
  lemma {:induction false} AbsentCharExcludes(pat: string, s: string, c: char)
    requires c in pat && c !in s
    ensures !Occurs(pat, s)
    decreases |s|
  {
    if |pat| <= |s| && |s| > 0 {
      assert c !in s[1..];
      AbsentCharExcludes(pat, s[1..], c);
    }
  }

  /** Replacing a single character by text without it leaves none of it. */
  lemma {:induction false} ReplaceCharGone(s: string, c: char, rep: string)
    requires c !in rep
    ensures c !in Replace(s, [c], rep)
    decreases |s|
  {
    if |s| >= 1 {
      ReplaceCharGone(s[1..], c, rep);
      if s[..1] != [c] {
        assert s[0] != c;
      }
    }
  }

  /** Single-character replacement distributes over concatenation. */
  lemma {:induction false} ReplaceCharConcat(s: string, t: string, c: char, rep: string)
    ensures Replace(s + t, [c], rep) == Replace(s, [c], rep) + Replace(t, [c], rep)
    decreases |s|
  {
    if s == [] {
      assert s + t == t;
    } else {
      assert (s + t)[..1] == s[..1];
      assert (s + t)[1..] == s[1..] + t;
      ReplaceCharConcat(s[1..], t, c, rep);
    }
  }

  /** A match at the very start is replaced, and scanning resumes after it. */
  lemma ReplaceAtMatch(t: string, pat: string, rep: string)
    requires pat != []
    ensures Replace(pat + t, pat, rep) == rep + Replace(t, pat, rep)
  {
    assert (pat + t)[..|pat|] == pat;
    assert (pat + t)[|pat|..] == t;
  }

  /** A character where no match starts is copied, and scanning resumes after it. */
  lemma ReplaceNoMatch(c: char, t: string, pat: string, rep: string)
    requires pat != [] && |pat| <= 1 + |t| && ([c] + t)[..|pat|] != pat
    ensures Replace([c] + t, pat, rep) == [c] + Replace(t, pat, rep)
  {
    assert ([c] + t)[0] == c;
    assert ([c] + t)[1..] == t;
  }

  /** Text that lacks the pattern's first character is copied unchanged. */
  lemma {:induction false} ReplaceSkipsPrefix(p: string, t: string, pat: string, rep: string)
    requires pat != [] && pat[0] !in p
    ensures Replace(p + t, pat, rep) == p + Replace(t, pat, rep)
    decreases |p|
  {
    if p == [] {
      assert p + t == t;
    } else if |p + t| < |pat| {
      assert Replace(t, pat, rep) == t;
    } else {
      assert (p + t)[..|pat|][0] == p[0];
      assert (p + t)[1..] == p[1..] + t;
      ReplaceSkipsPrefix(p[1..], t, pat, rep);
      assert [p[0]] + (p[1..] + Replace(t, pat, rep)) == p + Replace(t, pat, rep);
    }
  }

  /** If `a + [c] + x == b + [c] + y` and neither `a` nor `b` holds `c`, both splits agree. */
  lemma SplitAtFirst(a: string, x: string, b: string, y: string, c: char)
    requires c !in a && c !in b
    requires a + [c] + x == b + [c] + y
    ensures a == b && x == y
  {
    var s := a + [c] + x;
    assert s[|a|] == c && s[|b|] == c;
    assert forall i :: 0 <= i < |a| ==> s[i] == a[i];
    assert forall i :: 0 <= i < |b| ==> s[i] == b[i];
    assert a == s[..|a|];
    assert b == s[..|b|];
    assert x == s[|a| + 1..];
    assert y == (b + [c] + y)[|b| + 1..];
  }

  /** `s.rjust(width, fill)`: `s` left-padded with `fill` up to `width` characters. */
  function RJust(s: string, width: nat, fill: char): (r: string)
    ensures |r| == if |s| < width then width else |s|
    ensures r[|r| - |s|..] == s
    ensures forall i :: 0 <= i < |r| - |s| ==> r[i] == fill
  {
    if |s| >= width then s else seq(width - |s|, _ => fill) + s
  }

  /** True when every character is one of `0`..`9`. */
  predicate AllDigits(s: string)
  {
    forall i :: 0 <= i < |s| ==> '0' <= s[i] <= '9'
  }

  /** The character of a decimal digit. */
  function DigitChar(d: nat): (c: char)
    requires d < 10
  {
    ((d + '0' as int) as char)
  }

  /** `str(n)` for a non-negative integer: decimal, no sign, no leading zeros. */
  function Decimal(n: nat): (r: string)
    ensures |r| >= 1 && AllDigits(r)
    ensures r[0] == '0' ==> n == 0
    ensures |r| == 1 <==> n < 10
    ensures |r| == 2 <==> 10 <= n < 100
    decreases n
  {
    if n < 10 then [DigitChar(n)] else Decimal(n / 10) + [DigitChar(n % 10)]
  }

  /** `int(s)` for a string of decimal digits (leading zeros allowed). */
  function ParseDecimal(s: string): nat
    requires AllDigits(s)
    decreases |s|
  {
    if s == [] then 0
    else ParseDecimal(s[..|s| - 1]) * 10 + (s[|s| - 1] as int - '0' as int)
  }

  /** Reading back the decimal text of `n` gives `n`. */
  lemma {:induction false} DecimalRoundTrip(n: nat)
    ensures ParseDecimal(Decimal(n)) == n
    decreases n
  {
    if n >= 10 {
      var r := Decimal(n);
      assert r[..|r| - 1] == Decimal(n / 10);
      DecimalRoundTrip(n / 10);
    }
  }
}
