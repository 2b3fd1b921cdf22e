/** The handful of Python `str` operations the services and release scripts
    rely on, written out as explicit character predicates.

    Whitespace is Python's `str.isspace` restricted to the Latin-1 range,
    case mapping is ASCII only, and line breaks are the full set that
    `str.splitlines` recognises. */
module Text {

  type String = seq<char>

  /** Python's `str.isspace`, restricted to code points below U+0100. */
  predicate IsSpace(c: char) {
    || c == ' ' || c == '\t' || c == '\n' || c == '\r'
    || c == '\U{0B}' || c == '\U{0C}'
    || ('\U{1C}' <= c <= '\U{1F}')
    || c == '\U{85}' || c == '\U{A0}'
  }

  predicate AllSpace(s: String) {
    forall i :: 0 <= i < |s| ==> IsSpace(s[i])
  }

  predicate IsDigit(c: char) {
    '0' <= c <= '9'
  }

  /** A non-empty run of ASCII digits (the regular expression `[0-9]+`). */
  predicate IsDigits(s: String) {
    |s| > 0 && forall i :: 0 <= i < |s| ==> IsDigit(s[i])
  }

  /** Length of the run of ASCII digits at the start of `s`. */
  function DigitRun(s: String): (n: nat)
    ensures n <= |s|
    ensures forall k :: 0 <= k < n ==> IsDigit(s[k])
    ensures n < |s| ==> !IsDigit(s[n])
  {
    if s == [] || !IsDigit(s[0]) then 0
    else
      var n := 1 + DigitRun(s[1..]);
      assert forall k :: 1 <= k < n ==> s[k] == s[1..][k - 1];
      n
  }

  lemma {:induction false} DigitRunPrefix(d: String, rest: String)
    requires forall k :: 0 <= k < |d| ==> IsDigit(d[k])
    requires rest == [] || !IsDigit(rest[0])
    ensures DigitRun(d + rest) == |d|
    decreases |d|
  {
    if d == [] {
      assert d + rest == rest;
    } else {
      assert (d + rest)[1..] == d[1..] + rest;
      DigitRunPrefix(d[1..], rest);
    }
  }

  /** The decimal digits of a number, as JavaScript's string conversion
      of a non-negative integer writes them. */
  function NatToString(n: nat): (s: String)
    ensures IsDigits(s)
    decreases n
  {
    if n < 10 then [DigitChar(n)] else NatToString(n / 10) + [DigitChar(n % 10)]
  }

  function DigitChar(d: nat): (c: char)
    requires d < 10
    ensures IsDigit(c)
  {
    ['0', '1', '2', '3', '4', '5', '6', '7', '8', '9'][d]
  }

  function DigitOf(c: char): (d: nat)
    requires IsDigit(c)
    ensures d < 10
  {
    (c - '0') as int
  }

  /** The number a run of decimal digits denotes. */
  function DigitsValue(s: String): nat
    requires forall k :: 0 <= k < |s| ==> IsDigit(s[k])
  {
    if s == [] then 0 else 10 * DigitsValue(s[..|s| - 1]) + DigitOf(s[|s| - 1])
  }

  /** Reading the digits of a number gives the number back. */
  lemma {:induction false} NatToStringValue(n: nat)
    ensures DigitsValue(NatToString(n)) == n
    decreases n
  {
    var s := NatToString(n);
    if n < 10 {
      assert s[..0] == [];
    } else {
      NatToStringValue(n / 10);
      assert s[..|s| - 1] == NatToString(n / 10);
    }
  }

  /** Python's `a or b` on two strings: the first unless it is empty. */
  function Or(a: String, b: String): (r: String)
    ensures r == [] <==> a == [] && b == []
    ensures a != [] ==> r == a
  {
    if a != [] then a else b
  }

  // ---------------------------------------------------------------------
  // strip()
  // ---------------------------------------------------------------------

  /** Number of whitespace characters at the start of `s`. */
  function LeadingSpace(s: String): (n: nat)
    ensures n <= |s|
    ensures AllSpace(s[..n])
    ensures n < |s| ==> !IsSpace(s[n])
  {
    if s != [] && IsSpace(s[0]) then
      var n := 1 + LeadingSpace(s[1..]);
      assert s[..n] == [s[0]] + s[1..][..n - 1];
      n
    else 0
  }

  /** Number of whitespace characters at the end of `s`. */
  function TrailingSpace(s: String): (n: nat)
    ensures n <= |s|
    ensures forall k :: |s| - n <= k < |s| ==> IsSpace(s[k])
    ensures n < |s| ==> !IsSpace(s[|s| - n - 1])
  {
    if s != [] && IsSpace(s[|s| - 1]) then
      var p := s[..|s| - 1];
      var n := 1 + TrailingSpace(p);
      assert forall k :: 0 <= k < |p| ==> s[k] == p[k];
      n
    else 0
  }

  /** Python's `str.strip()` with no argument: the slice of `s` between its
      leading and its trailing whitespace. */
  function Strip(s: String): (r: String)
    ensures |r| <= |s|
  {
    var a := LeadingSpace(s);
    if a == |s| then []
    else
      var t := TrailingSpace(s);
      assert a < |s| - t by { assert !IsSpace(s[a]); }
      s[a..|s| - t]
  }

  /** What `strip()` keeps and what it drops: the result is a slice of the
      input with nothing but whitespace around it, and neither end of a
      non-empty result is whitespace. */
  lemma StripSpec(s: String)
    ensures LeadingSpace(s) + |Strip(s)| <= |s|
    ensures Strip(s) == s[LeadingSpace(s)..LeadingSpace(s) + |Strip(s)|]
    ensures AllSpace(s[LeadingSpace(s) + |Strip(s)|..])
    ensures forall k :: LeadingSpace(s) + |Strip(s)| <= k < |s| ==> IsSpace(s[k])
    ensures Strip(s) == [] <==> AllSpace(s)
    ensures Strip(s) != [] ==> !IsSpace(Strip(s)[0]) && !IsSpace(Strip(s)[|Strip(s)| - 1])
  {
    StripSlice(s);
    StripEmpty(s);
    StripEnds(s);
  }

  /** `strip()` keeps a slice followed by whitespace only. */
  lemma StripSlice(s: String)
    ensures LeadingSpace(s) + |Strip(s)| <= |s|
    ensures Strip(s) == s[LeadingSpace(s)..LeadingSpace(s) + |Strip(s)|]
    ensures AllSpace(s[LeadingSpace(s) + |Strip(s)|..])
    ensures forall k :: LeadingSpace(s) + |Strip(s)| <= k < |s| ==> IsSpace(s[k])
  {
    var a := LeadingSpace(s);
    var e := StripEnd(s);
    assert a + |Strip(s)| == e;
    assert AllSpace(s[e..]);
  }

  /** Where the text `strip()` keeps ends: before the trailing whitespace,
      or at the end of an all-whitespace string. */
  lemma StripEnd(s: String) returns (e: nat)
    ensures e == LeadingSpace(s) + |Strip(s)| && e <= |s|
    ensures Strip(s) == s[LeadingSpace(s)..e]
    ensures forall k :: e <= k < |s| ==> IsSpace(s[k])
  {
    var a := LeadingSpace(s);
    if a == |s| {
      e := |s|;
    } else {
      var t := TrailingSpace(s);
      e := |s| - t;
    }
  }

  /** `strip()` empties exactly the all-whitespace strings. */
  lemma StripEmpty(s: String)
    ensures Strip(s) == [] <==> AllSpace(s)
  {
    var a := LeadingSpace(s);
    if a == |s| {
      assert s[..a] == s;
    } else {
      assert !IsSpace(s[a]);
      assert |Strip(s)| == |s| - TrailingSpace(s) - a;
    }
  }

  /** Neither end of a non-empty `strip()` is whitespace. */
  lemma StripEnds(s: String)
    ensures Strip(s) != [] ==> !IsSpace(Strip(s)[0]) && !IsSpace(Strip(s)[|Strip(s)| - 1])
  {
    var a := LeadingSpace(s);
    if a != |s| {
      var t := TrailingSpace(s);
      var r := Strip(s);
      assert r == s[a..|s| - t];
      assert r[0] == s[a];
      assert r[|r| - 1] == s[|s| - t - 1];
    }
  }

  /** A lower-case prefix without whitespace that the unstripped text
      starts with is kept by `strip()`. */
  lemma StripKeepsLowerPrefix(s: String, p: String)
    requires p != [] && StartsWith(Lower(s), p)
    requires !IsSpace(p[0]) && !IsSpace(p[|p| - 1])
    ensures Strip(s) == s[..|Strip(s)|]
    ensures StartsWith(Lower(Strip(s)), p)
  {
    StripSpec(s);
    assert LowerChar(s[0]) == p[0];
    assert !IsSpace(s[0]);
    assert LeadingSpace(s) == 0;
    var h := Strip(s);
    assert LowerChar(s[|p| - 1]) == p[|p| - 1];
    assert !IsSpace(s[|p| - 1]);
    assert |p| <= |h|;
    assert Lower(h)[..|p|] == Lower(s)[..|p|];
  }

  /** A string that does not start with whitespace keeps its head under
      `strip()`: the result is a prefix of the input. */
  lemma StripKeepsHead(s: String)
    requires s != [] && !IsSpace(s[0])
    ensures Strip(s) == s[..|Strip(s)|]
  {
    StripSpec(s);
    assert LeadingSpace(s) == 0;
  }

  /** A string with no whitespace at either end is its own `strip()`. */
  lemma StripNonSpace(s: String)
    requires s != [] && !IsSpace(s[0]) && !IsSpace(s[|s| - 1])
    ensures Strip(s) == s
  {
    assert LeadingSpace(s) == 0;
    assert TrailingSpace(s) == 0;
    assert s[0..|s|] == s;
  }

  /** `strip()` is idempotent. */
  lemma StripIdempotent(s: String)
    ensures Strip(Strip(s)) == Strip(s)
  {
    var r := Strip(s);
    StripSpec(s);
    if r != [] {
      assert LeadingSpace(r) == 0;
      assert TrailingSpace(r) == 0;
      assert r[0..|r|] == r;
    }
  }

  // ---------------------------------------------------------------------
  // lower(), startswith(), `in`
  // ---------------------------------------------------------------------

  function LowerChar(c: char): (d: char) {
    if 'A' <= c <= 'Z' then (c as int + 32) as char else c
  }

  /** Python's `str.lower()` on the ASCII letters; every other character is
      left as it is. */
  function Lower(s: String): (r: String)
    ensures |r| == |s|
    ensures forall i :: 0 <= i < |s| ==> r[i] == LowerChar(s[i])
  {
    seq(|s|, i requires 0 <= i < |s| => LowerChar(s[i]))
  }

  /** Python's `s.startswith(p)`. */
  predicate StartsWith(s: String, p: String) {
    |p| <= |s| && s[..|p|] == p
  }

  /** Python's `t in s` for two strings. */
  predicate Contains(s: String, t: String)
    decreases |s|
  {
    StartsWith(s, t) || (s != [] && Contains(s[1..], t))
  }

  /** Python's `c in s` for a single character. */
  predicate HasChar(s: String, c: char) {
    exists i :: 0 <= i < |s| && s[i] == c
  }

  // ---------------------------------------------------------------------
  // partition(), split(c, 1)
  // ---------------------------------------------------------------------

  /** Index of the first `c` in `s`, or `|s|` when there is none. */
  function IndexOf(s: String, c: char): (i: nat)
    ensures i <= |s|
    ensures forall k :: 0 <= k < i ==> s[k] != c
    ensures i < |s| ==> s[i] == c
    ensures i == |s| <==> !HasChar(s, c)
  {
    if s == [] then 0
    else if s[0] == c then 0
    else
      var i := 1 + IndexOf(s[1..], c);
      assert forall k :: 1 <= k < |s| ==> s[k] == s[1..][k - 1];
      i
  }

  /** In `a + [c] + b` with no `c` in `a`, the first `c` is the one after
      `a`, and the two sides of it are `a` and `b`. */
  lemma IndexOfAfter(a: String, c: char, b: String)
    requires !HasChar(a, c)
    ensures IndexOf(a + [c] + b, c) == |a|
    ensures (a + [c] + b)[..|a|] == a && (a + [c] + b)[|a| + 1..] == b
  {
    var s := a + [c] + b;
    assert s[|a|] == c;
    assert forall k :: 0 <= k < |a| ==> s[k] == a[k];
  }

  /** Python's `s.partition(c)` without the separator: the text before the
      first `c` and the text after it (empty when there is no `c`). */
  function Partition(s: String, c: char): (parts: (String, String))
    ensures !HasChar(parts.0, c)
    ensures HasChar(s, c) ==> s == parts.0 + [c] + parts.1
    ensures !HasChar(s, c) ==> parts == (s, [])
  {
    var i := IndexOf(s, c);
    if i == |s| then (s, [])
    else
      assert s == s[..i] + [c] + s[i + 1..];
      (s[..i], s[i + 1..])
  }

  // ---------------------------------------------------------------------
  // splitlines() and "\n".join()
  // ---------------------------------------------------------------------

  /** The line boundaries of Python's `str.splitlines`. */
  predicate IsLineBreak(c: char) {
    || c == '\n' || c == '\r' || c == '\U{0B}' || c == '\U{0C}'
    || c == '\U{1C}' || c == '\U{1D}' || c == '\U{1E}'
    || c == '\U{85}' || c == '\U{2028}' || c == '\U{2029}'
  }

  predicate NoBreaks(s: String) {
    forall i :: 0 <= i < |s| ==> !IsLineBreak(s[i])
  }

  /** Index of the first line break, or `|s|` when there is none. */
  function BreakAt(s: String): (i: nat)
    ensures i <= |s|
    ensures NoBreaks(s[..i])
    ensures i < |s| ==> IsLineBreak(s[i])
  {
    if s == [] || IsLineBreak(s[0]) then 0
    else
      var i := 1 + BreakAt(s[1..]);
      assert s[..i] == [s[0]] + s[1..][..i - 1];
      i
  }

  /** Python's `str.splitlines()`: the text between line boundaries, where a
      `\r\n` pair is one boundary; no empty line follows a final boundary and
      the empty string has no lines. */
  function SplitLines(s: String): (lines: seq<String>)
    ensures forall l <- lines :: NoBreaks(l)
    ensures s == [] <==> lines == []
    decreases |s|
  {
    if s == [] then []
    else
      var i := BreakAt(s);
      if i == |s| then
        assert s[..i] == s;
        [s]
      else
        var next := if s[i] == '\r' && i + 1 < |s| && s[i + 1] == '\n' then i + 2 else i + 1;
        [s[..i]] + SplitLines(s[next..])
  }

  /** Python's `sep.join(parts)`. */
  function Join(parts: seq<String>, sep: String): (r: String)
    ensures parts == [] ==> r == []
    ensures |parts| == 1 ==> r == parts[0]
  {
    if parts == [] then []
    else if |parts| == 1 then parts[0]
    else parts[0] + sep + Join(parts[1..], sep)
  }

  /** Python's `filter(None, parts)` on strings: the non-empty ones, in
      order. */
  function NonEmpty(parts: seq<String>): (r: seq<String>)
    ensures |r| <= |parts|
    ensures forall x :: x in r <==> x in parts && x != []
  {
    if parts == [] then []
    else if parts[0] == [] then NonEmpty(parts[1..])
    else [parts[0]] + NonEmpty(parts[1..])
  }

  lemma BreakAtAfterLine(a: String, b: String)
    requires NoBreaks(a)
    requires b != [] && IsLineBreak(b[0])
    ensures BreakAt(a + b) == |a|
  {
    if a != [] {
      assert (a + b)[1..] == a[1..] + b;
      BreakAtAfterLine(a[1..], b);
    }
  }

  /** A line free of boundaries followed by `\n` is split off as the first
      line, and the remainder is split on its own. */
  lemma SplitLinesCons(a: String, b: String)
    requires NoBreaks(a)
    ensures SplitLines(a + "\n" + b) == [a] + SplitLines(b)
  {
    var s := a + "\n" + b;
    BreakAtAfterLine(a, "\n" + b);
    assert s == a + ("\n" + b);
    assert s[..|a|] == a;
    assert s[|a| + 1..] == b;
  }

  /** `splitlines` undoes `"\n".join` for lines that hold no boundary of
      their own, provided the last line is not empty (a trailing empty line
      would be swallowed with the final newline). */
  lemma {:induction false} SplitLinesJoin(lines: seq<String>)
    requires forall l <- lines :: NoBreaks(l)
    requires lines != [] ==> lines[|lines| - 1] != []
    ensures SplitLines(Join(lines, "\n")) == lines
    decreases |lines|
  {
    if |lines| == 1 {
      assert lines[0] in lines;
    } else if |lines| > 1 {
      assert lines[0] in lines;
      assert Join(lines, "\n") == lines[0] + "\n" + Join(lines[1..], "\n");
      SplitLinesCons(lines[0], Join(lines[1..], "\n"));
      SplitLinesJoin(lines[1..]);
      assert [lines[0]] + lines[1..] == lines;
    }
  }

  /** Only the head of a text decides its first line: the first line of
      `a + "\n" + b` is `a` whatever `b` holds. */
  lemma FirstLineOf(a: String, b: String)
    requires NoBreaks(a)
    ensures SplitLines(a + "\n" + b) != []
    ensures SplitLines(a + "\n" + b)[0] == a
  {
    SplitLinesCons(a, b);
  }
}
