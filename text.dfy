/**
 * The Python `str` operations the pipeline relies on: `isspace`, `strip`, `lower`,
 * `in`/`find`, `splitlines`, `join` and the decimal rendering of an `int` by an f-string.
 * Characters are Unicode scalar values, as Python's code points are.
 */
module Text {
  import opened Wrappers

  /** Concatenation regroups freely. */
  lemma AppendAssoc<T>(a: seq<T>, b: seq<T>, c: seq<T>)
    ensures (a + b) + c == a + (b + c)
  {
  }

  /** Python's `str.isspace()` on one character. */
  predicate IsSpace(c: char) {
    c == ' ' || ('\t' <= c <= '\r') || ('\U{1C}' <= c <= '\U{1F}') || c == '\U{85}' || c == '\U{A0}'
    || c == '\U{1680}' || ('\U{2000}' <= c <= '\U{200A}') || c == '\U{2028}' || c == '\U{2029}'
    || c == '\U{202F}' || c == '\U{205F}' || c == '\U{3000}'
  }

  /** A character at which Python's `str.splitlines()` ends a line. */
  predicate IsLineBreak(c: char) {
    ('\n' <= c <= '\r') || ('\U{1C}' <= c <= '\U{1E}') || c == '\U{85}' || c == '\U{2028}' || c == '\U{2029}'
  }

  predicate AllSpace(s: string) {
    forall k | 0 <= k < |s| :: IsSpace(s[k])
  }

  predicate NoLineBreak(s: string) {
    forall k | 0 <= k < |s| :: !IsLineBreak(s[k])
  }

  /** `s` has no whitespace at either end (a stripped string). */
  predicate IsStripped(s: string) {
    s == [] || (!IsSpace(s[0]) && !IsSpace(s[|s| - 1]))
  }

  // ----- strip -----

  /** Python's `str.rstrip()`: the prefix left before the trailing whitespace. */
  function TrimEnd(s: string): (r: string)
    ensures |r| <= |s|
    ensures r == [] || !IsSpace(r[|r| - 1])
  {
    if s != [] && IsSpace(s[|s| - 1]) then TrimEnd(s[..|s| - 1]) else s
  }

  /** What `rstrip` removes is a whitespace suffix. */
  lemma {:induction false} TrimEndSlice(s: string)
    ensures TrimEnd(s) == s[..|TrimEnd(s)|]
    ensures AllSpace(s[|TrimEnd(s)|..])
  {
    if s != [] && IsSpace(s[|s| - 1]) {
      var t := s[..|s| - 1];
      TrimEndSlice(t);
      assert s[|TrimEnd(s)|..] == t[|TrimEnd(t)|..] + [s[|s| - 1]];
    }
  }

  /** Number of whitespace characters at the start of `s`. */
  function LeadingSpace(s: string): (n: nat)
    ensures n <= |s|
  {
    if s != [] && IsSpace(s[0]) then 1 + LeadingSpace(s[1..]) else 0
  }

  /**
   * Python's `str.strip()`: the leading whitespace dropped, then the trailing; empty
   * exactly when `s` is all whitespace.
   */
  function Strip(s: string): (r: string)
    ensures |r| <= |s| && IsStripped(r)
    ensures r == [] <==> AllSpace(s)
  {
    if s != [] && IsSpace(s[0]) then
      assert AllSpace(s) <==> AllSpace(s[1..]);
      Strip(s[1..])
    else
      TrimEndSlice(s);
      TrimEnd(s)
  }

  /** `strip` is `rstrip` after the leading whitespace is dropped. */
  lemma {:induction false} StripDrop(s: string)
    ensures Strip(s) == TrimEnd(s[LeadingSpace(s)..])
  {
    if s != [] && IsSpace(s[0]) {
      StripDrop(s[1..]);
      assert s[1..][LeadingSpace(s[1..])..] == s[LeadingSpace(s)..];
    } else {
      assert s[0..] == s;
    }
  }

  /** What the leading whitespace count covers is whitespace. */
  lemma {:induction false} LeadingSpaceAll(s: string)
    ensures AllSpace(s[..LeadingSpace(s)])
  {
    if s != [] && IsSpace(s[0]) {
      var u := s[1..];
      LeadingSpaceAll(u);
      var pre := s[..LeadingSpace(s)];
      forall k | 0 <= k < |pre| ensures IsSpace(pre[k]) {
        if k > 0 {
          assert pre[k] == u[..LeadingSpace(u)][k - 1];
        }
      }
    }
  }

  /** The stripped string is the slice of `s` between its leading and its trailing whitespace. */
  lemma StripSlice(s: string)
    ensures var i := LeadingSpace(s); var r := Strip(s);
      i + |r| <= |s| && r == s[i..i + |r|] && AllSpace(s[..i]) && AllSpace(s[i + |r|..])
  {
    var i := LeadingSpace(s);
    var t := s[i..];
    StripDrop(s);
    LeadingSpaceAll(s);
    TrimEndSlice(t);
    var r := Strip(s);
    assert r == TrimEnd(t) == t[..|r|];
    DropTake(s, i, |r|);
    DropDrop(s, i, |r|);
  }

  /** Stripping a line that holds no line break leaves a string without one. */
  lemma StripNoBreak(s: string)
    requires NoLineBreak(s)
    ensures NoLineBreak(Strip(s))
  {
    var i := LeadingSpace(s);
    var r := Strip(s);
    StripSlice(s);
    forall m | 0 <= m < |r| ensures !IsLineBreak(r[m]) {
      assert r[m] == s[i + m];
    }
  }

  lemma DropTake<T>(s: seq<T>, i: nat, n: nat)
    requires i + n <= |s|
    ensures s[i..][..n] == s[i..i + n]
  {
  }

  lemma DropDrop<T>(s: seq<T>, i: nat, n: nat)
    requires i + n <= |s|
    ensures s[i..][n..] == s[i + n..]
  {
  }

  /** Stripping a string that is already stripped changes nothing. */
  lemma StripStripped(s: string)
    requires IsStripped(s)
    ensures Strip(s) == s
  {
  }

  /** `strip` is idempotent. */
  lemma StripIdempotent(s: string)
    ensures Strip(Strip(s)) == Strip(s)
  {
    StripStripped(Strip(s));
  }

  // ----- lower -----

  /** `str.lower()` on one character, restricted to ASCII letters. */
  function LowerChar(c: char): (r: char)
    ensures !('A' <= r <= 'Z')
    ensures ('A' <= c <= 'Z') || r == c
  {
    if 'A' <= c <= 'Z' then (c as int + 32) as char else c
  }

  /** `str.lower()`, restricted to ASCII letters: same length, no upper-case ASCII left. */
  function Lower(s: string): (r: string)
    ensures |r| == |s|
    ensures forall k | 0 <= k < |r| :: !('A' <= r[k] <= 'Z')
  {
    seq(|s|, k requires 0 <= k < |s| => LowerChar(s[k]))
  }

  /** Lower-casing moves each upper-case ASCII letter to its lower-case letter and keeps every other character. */
  lemma LowerSpec(s: string)
    ensures forall k | 0 <= k < |s| ::
      && ('A' <= s[k] <= 'Z' ==> Lower(s)[k] as int == s[k] as int + 32)
      && (!('A' <= s[k] <= 'Z') ==> Lower(s)[k] == s[k])
  {
  }

  // ----- substring search -----

  predicate OccursAt(s: string, pat: string, i: int) {
    0 <= i && i + |pat| <= |s| && s[i..i + |pat|] == pat
  }

  /** The first occurrence of `pat` in `s` at or after `from`. */
  function FindFrom(s: string, pat: string, from: nat): (r: Option<nat>)
    decreases |s| - from
    ensures r.Some? ==> from <= r.value && OccursAt(s, pat, r.value)
    ensures forall j | from <= j && (r.None? || j < r.value) :: !OccursAt(s, pat, j)
  {
    if from + |pat| > |s| then None
    else if s[from..from + |pat|] == pat then Some(from)
    else FindFrom(s, pat, from + 1)
  }

  /** Python's `s.find(pat)`, with `None` for -1: the least index at which `pat` occurs. */
  function Find(s: string, pat: string): (r: Option<nat>)
    ensures r.Some? ==> OccursAt(s, pat, r.value)
    ensures forall j | 0 <= j && (r.None? || j < r.value) :: !OccursAt(s, pat, j)
  {
    FindFrom(s, pat, 0)
  }

  /** Python's `pat in s`. */
  predicate Contains(s: string, pat: string) {
    Find(s, pat).Some?
  }

  /** `pat in s` holds exactly when `pat` occurs somewhere in `s`. */
  lemma ContainsIff(s: string, pat: string)
    ensures Contains(s, pat) <==> exists i :: OccursAt(s, pat, i)
  {
  }

  /** A string contains whatever occurs inside a string it contains. */
  lemma {:induction false} ContainsTransitive(s: string, t: string, pat: string, i: int, j: int)
    requires OccursAt(s, t, i) && OccursAt(t, pat, j)
    ensures OccursAt(s, pat, i + j)
  {
    assert forall k | 0 <= k < |pat| :: s[i + j + k] == t[j + k] == pat[k];
  }

  // ----- splitlines and join -----

  /** Index of the first line break in `s`, or `|s|` when there is none. */
  function LineEnd(s: string): (r: nat)
    ensures r <= |s| && (r < |s| ==> IsLineBreak(s[r]))
    ensures NoLineBreak(s[..r])
  {
    if s == [] || IsLineBreak(s[0]) then 0 else 1 + LineEnd(s[1..])
  }

  /**
   * Python's `str.splitlines()` for a string that holds no carriage return
   * (so no "\r\n" pair): the pieces between line breaks, without a last empty piece
   * after a final break.
   */
  function SplitLines(s: string): (r: seq<string>)
    decreases |s|
    ensures forall k | 0 <= k < |r| :: NoLineBreak(r[k])
  {
    if s == [] then []
    else
      var e := LineEnd(s);
      if e == |s| then [s] else [s[..e]] + SplitLines(s[e + 1..])
  }

  /** Every line of an all-whitespace string is all whitespace. */
  lemma {:induction false} SplitLinesAllSpace(s: string)
    requires AllSpace(s)
    ensures forall k | 0 <= k < |SplitLines(s)| :: AllSpace(SplitLines(s)[k])
    decreases |s|
  {
    if s != [] {
      var e := LineEnd(s);
      if e < |s| {
        assert AllSpace(s[e + 1..]);
        SplitLinesAllSpace(s[e + 1..]);
      }
    }
  }

  /** Text with a non-whitespace character has a line with one, since every line break is whitespace. */
  lemma {:induction false} SplitLinesNonBlank(s: string)
    requires !AllSpace(s)
    ensures exists k | 0 <= k < |SplitLines(s)| :: !AllSpace(SplitLines(s)[k])
    decreases |s|
  {
    var m :| 0 <= m < |s| && !IsSpace(s[m]);
    var e := LineEnd(s);
    var lines := SplitLines(s);
    if e == |s| {
      assert lines[0] == s;
    } else if m < e {
      assert lines[0] == s[..e] && s[..e][m] == s[m];
    } else {
      assert m != e;
      var rest := s[e + 1..];
      assert rest[m - e - 1] == s[m];
      SplitLinesNonBlank(rest);
      var tail := SplitLines(rest);
      assert lines == [s[..e]] + tail;
      var k :| 0 <= k < |tail| && !AllSpace(tail[k]);
      NonBlankAfterHead(s[..e], tail, k);
    }
  }

  lemma NonBlankAfterHead(head: string, tail: seq<string>, k: nat)
    requires k < |tail| && !AllSpace(tail[k])
    ensures exists i | 0 <= i < |[head] + tail| :: !AllSpace(([head] + tail)[i])
  {
    assert ([head] + tail)[k + 1] == tail[k];
  }

  /** Python's `sep.join(parts)`. */
  function Join(parts: seq<string>, sep: string): string {
    if |parts| == 0 then ""
    else if |parts| == 1 then parts[0]
    else parts[0] + sep + Join(parts[1..], sep)
  }

  /** Splitting lines that were joined with "\n" gives the lines back, when none is empty. */
  lemma {:induction false} SplitLinesJoin(parts: seq<string>)
    requires forall k | 0 <= k < |parts| :: parts[k] != [] && NoLineBreak(parts[k])
    ensures SplitLines(Join(parts, "\n")) == parts
  {
    if |parts| == 1 {
      LineEndOfNoBreak(parts[0], "");
      assert parts[0] + "" == parts[0];
    } else if |parts| > 1 {
      var s := Join(parts, "\n");
      var rest := Join(parts[1..], "\n");
      assert s == parts[0] + ("\n" + rest);
      LineEndOfNoBreak(parts[0], "\n" + rest);
      assert s[..|parts[0]|] == parts[0];
      assert s[|parts[0]| + 1..] == rest;
      SplitLinesJoin(parts[1..]);
    }
  }

  lemma {:induction false} LineEndOfNoBreak(a: string, b: string)
    requires NoLineBreak(a)
    requires b == [] || IsLineBreak(b[0])
    ensures LineEnd(a + b) == |a|
    decreases |a|
  {
    if a != [] {
      assert (a + b)[1..] == a[1..] + b;
      LineEndOfNoBreak(a[1..], b);
    }
  }

  /** A character that is neither in any part nor in the separator is not in the joined string. */
  lemma {:induction false} JoinAvoids(parts: seq<string>, sep: string, c: char)
    requires forall k | 0 <= k < |parts| :: c !in parts[k]
    requires c !in sep
    ensures c !in Join(parts, sep)
  {
    if |parts| > 1 {
      JoinAvoids(parts[1..], sep, c);
    }
  }

  /** Every part occurs in the joined string. */
  lemma {:induction false} JoinHasPart(parts: seq<string>, sep: string, i: int)
    requires 0 <= i < |parts|
    ensures exists j :: OccursAt(Join(parts, sep), parts[i], j)
  {
    var s := Join(parts, sep);
    if |parts| == 1 {
      assert s[0..|parts[i]|] == parts[i];
      assert OccursAt(s, parts[i], 0);
    } else if i == 0 {
      var rest := Join(parts[1..], sep);
      assert s == parts[0] + (sep + rest) by {
        AppendAssoc(parts[0], sep, rest);
      }
      assert s[0..|parts[0]|] == parts[0];
      assert OccursAt(s, parts[i], 0);
    } else {
      var rest := Join(parts[1..], sep);
      JoinHasPart(parts[1..], sep, i - 1);
      var j :| OccursAt(rest, parts[1..][i - 1], j);
      assert parts[1..][i - 1] == parts[i];
      var off := |parts[0]| + |sep|;
      assert OccursAt(s, rest, off) by {
        assert s == (parts[0] + sep) + rest;
        assert s[off..off + |rest|] == rest;
      }
      ContainsTransitive(s, rest, parts[i], off, j);
      assert OccursAt(s, parts[i], off + j);
    }
  }

  // ----- decimal rendering of integers -----

  function DigitChar(d: nat): (c: char)
    requires d < 10
    ensures '0' <= c <= '9'
  {
    ('0' as int + d) as char
  }

  predicate AllDigits(s: string) {
    forall k | 0 <= k < |s| :: '0' <= s[k] <= '9'
  }

  /** The decimal digits of `n`, most significant first, as `str(n)` gives them. */
  function NatToString(n: nat): (r: string)
    ensures |r| >= 1 && AllDigits(r)
    ensures |r| == 1 <==> n < 10
  {
    if n < 10 then [DigitChar(n)] else NatToString(n / 10) + [DigitChar(n % 10)]
  }

  /** `str(i)` for any integer: a minus sign before the digits of a negative number. */
  function IntToString(i: int): (r: string)
    ensures r != [] && (r[0] == '-' <==> i < 0)
  {
    if i < 0 then "-" + NatToString(-i) else NatToString(i)
  }

  /** Different numbers have different decimal renderings. */
  lemma {:induction false} NatToStringInjective(a: nat, b: nat)
    requires NatToString(a) == NatToString(b)
    ensures a == b
  {
    var s := NatToString(a);
    if a >= 10 && b >= 10 {
      assert s[|s| - 1] == DigitChar(a % 10) == DigitChar(b % 10);
      assert s[..|s| - 1] == NatToString(a / 10) == NatToString(b / 10);
      NatToStringInjective(a / 10, b / 10);
    } else if a < 10 && b < 10 {
      assert s[0] == DigitChar(a) == DigitChar(b);
    }
  }
}
