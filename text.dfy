/** String primitives shared by the segmenter, the extraction driver and the
    filename sanitiser: whitespace stripping, substring tests, removal of every
    occurrence of a pattern, joining and splitting, and decimal rendering of
    integers. Characters are code points; the whitespace set is the fixed ASCII
    part of what Python's `str.isspace` (and the regex class `\s`) accept. */
module Text {

  /** The whitespace characters recognised by `str.strip()` and `\s`:
      tab, line feed, vertical tab, form feed, carriage return,
      the four information separators 0x1C-0x1F, and space. */
  predicate IsWhitespace(c: char) {
    ('\t' <= c <= '\r') || ('\U{1C}' <= c <= '\U{1F}') || c == ' '
  }

  predicate AllWhitespace(s: string) {
    forall i :: 0 <= i < |s| ==> IsWhitespace(s[i])
  }

  /** A string with no whitespace at either end. */
  predicate IsStripped(s: string) {
    |s| == 0 || (!IsWhitespace(s[0]) && !IsWhitespace(s[|s| - 1]))
  }

  /** `str.lstrip()`: drops leading whitespace. */
  function StripLeft(s: string): (r: string)
    ensures |r| <= |s|
    ensures |r| > 0 ==> !IsWhitespace(r[0])
    ensures r == [] <==> AllWhitespace(s)
    decreases |s|
  {
    if |s| > 0 && IsWhitespace(s[0]) then StripLeft(s[1..]) else s
  }

  /** `str.rstrip()`: drops trailing whitespace. */
  function StripRight(s: string): (r: string)
    ensures |r| <= |s|
    ensures |r| > 0 ==> !IsWhitespace(r[|r| - 1]) && r[0] == s[0]
    ensures r == [] <==> AllWhitespace(s)
    decreases |s|
  {
    if |s| > 0 && IsWhitespace(s[|s| - 1]) then StripRight(s[..|s| - 1]) else s
  }

  /** `str.strip()`. */
  function Strip(s: string): (r: string)
    ensures IsStripped(r) && |r| <= |s|
  {
    StripRight(StripLeft(s))
  }

  /** What `lstrip` drops is whitespace, and what it keeps is a suffix. */
  lemma {:induction false} StripLeftSlice(s: string)
    ensures StripLeft(s) == s[|s| - |StripLeft(s)|..]
    ensures AllWhitespace(s[..|s| - |StripLeft(s)|])
    decreases |s|
  {
    if |s| > 0 && IsWhitespace(s[0]) {
      StripLeftSlice(s[1..]);
      var n := |s| - |StripLeft(s)|;
      assert s[..n] == [s[0]] + s[1..][..n - 1];
    }
  }

  /** What `rstrip` drops is whitespace, and what it keeps is a prefix. */
  lemma {:induction false} StripRightSlice(s: string)
    ensures StripRight(s) == s[..|StripRight(s)|]
    ensures AllWhitespace(s[|StripRight(s)|..])
    decreases |s|
  {
    if |s| > 0 && IsWhitespace(s[|s| - 1]) {
      var s' := s[..|s| - 1];
      StripRightSlice(s');
      var n := |StripRight(s)|;
      assert s[n..] == s'[n..] + [s[|s| - 1]];
    }
  }

  /** Stripping removes whitespace only at the two ends: the result is a
      contiguous slice of the input with only whitespace around it. */
  lemma StripIsSlice(s: string)
    ensures exists i: nat :: (i + |Strip(s)| <= |s| && Strip(s) == s[i..i + |Strip(s)|]
      && AllWhitespace(s[..i]) && AllWhitespace(s[i + |Strip(s)|..]))
  {
    var l := StripLeft(s);
    StripLeftSlice(s);
    StripRightSlice(l);
    var i := |s| - |l|;
    var r := StripRight(l);
    assert r == s[i..i + |r|];
    assert s[i + |r|..] == l[|r|..];
  }

  /** A string that is already stripped is left unchanged. */
  lemma {:induction false} StripStripped(s: string)
    requires IsStripped(s)
    ensures Strip(s) == s
  {
  }

  /** `str.strip()` is idempotent. */
  lemma StripIdempotent(s: string)
    ensures Strip(Strip(s)) == Strip(s)
  {
    StripStripped(Strip(s));
  }

  /** An all-whitespace string strips to the empty string, and conversely. */
  lemma StripEmpty(s: string)
    ensures Strip(s) == "" <==> AllWhitespace(s)
  {
  }

  predicate StartsWith(s: string, prefix: string) {
    |prefix| <= |s| && s[..|prefix|] == prefix
  }

  /** Python's `pattern in s`: `pattern` occurs somewhere in `s`. */
  predicate Contains(s: string, pattern: string)
    decreases |s|
  {
    StartsWith(s, pattern) || (|s| > 0 && Contains(s[1..], pattern))
  }

  /** `pattern` occurs in `s` starting at index `i`. */
  predicate OccursAt(s: string, pattern: string, i: int) {
    0 <= i && i + |pattern| <= |s| && s[i..i + |pattern|] == pattern
  }

  /** Contains as an occurrence at some index, for reasoning by positions. */
  lemma ContainsAt(s: string, pattern: string)
    ensures Contains(s, pattern) <==> exists i :: OccursAt(s, pattern, i)
  {
    if Contains(s, pattern) {
      var i := ContainsWitness(s, pattern);
    }
    forall i | OccursAt(s, pattern, i)
      ensures Contains(s, pattern)
    {
      OccursContains(s, pattern, i);
    }
  }

  lemma {:induction false} ContainsWitness(s: string, pattern: string) returns (i: int)
    requires Contains(s, pattern)
    ensures OccursAt(s, pattern, i)
    decreases |s|
  {
    if StartsWith(s, pattern) {
      i := 0;
    } else {
      var j := ContainsWitness(s[1..], pattern);
      assert s[j + 1..j + 1 + |pattern|] == s[1..][j..j + |pattern|];
      i := j + 1;
    }
  }

  lemma {:induction false} OccursContains(s: string, pattern: string, i: int)
    requires OccursAt(s, pattern, i)
    ensures Contains(s, pattern)
    decreases i
  {
    if i > 0 {
      assert s[1..][i - 1..i - 1 + |pattern|] == s[i..i + |pattern|];
      OccursContains(s[1..], pattern, i - 1);
    }
  }

  /** A string containing a longer pattern also contains each of its prefixes. */
  lemma ContainsPrefixOfPattern(s: string, pattern: string, prefix: string)
    requires Contains(s, pattern) && StartsWith(pattern, prefix)
    ensures Contains(s, prefix)
  {
    var i := ContainsWitness(s, pattern);
    assert s[i..i + |prefix|] == pattern[..|prefix|];
    OccursContains(s, prefix, i);
  }

  /** A pattern containing a character `c` cannot occur in a string without `c`. */
  lemma NotContainsWithoutChar(s: string, pattern: string, c: char)
    requires c in pattern && c !in s
    ensures !Contains(s, pattern)
  {
    if Contains(s, pattern) {
      var i := ContainsWitness(s, pattern);
    }
  }

  /** Python's `s.replace(pattern, "")`: scans left to right and deletes each
      non-overlapping occurrence of `pattern`. */
  function RemoveAll(s: string, pattern: string): (r: string)
    requires |pattern| > 0
    ensures |r| <= |s|
    decreases |s|
  {
    if |s| < |pattern| then s
    else if s[..|pattern|] == pattern then RemoveAll(s[|pattern|..], pattern)
    else [s[0]] + RemoveAll(s[1..], pattern)
  }

  /** A string without an occurrence of the pattern passes through unchanged. */
  lemma {:induction false} RemoveAllAbsent(s: string, pattern: string)
    requires |pattern| > 0 && !Contains(s, pattern)
    ensures RemoveAll(s, pattern) == s
    decreases |s|
  {
    if |s| >= |pattern| {
      RemoveAllAbsent(s[1..], pattern);
      assert s == [s[0]] + s[1..];
    }
  }

  /** Python's `sep.join(parts)`. */
  function Join(sep: string, parts: seq<string>): string
    decreases |parts|
  {
    if |parts| == 0 then ""
    else if |parts| == 1 then parts[0]
    else parts[0] + sep + Join(sep, parts[1..])
  }

  /** Joining two non-empty lists is joining their joins. */
  lemma {:induction false} JoinAppend(sep: string, a: seq<string>, b: seq<string>)
    requires |a| > 0 && |b| > 0
    ensures Join(sep, a + b) == Join(sep, a) + sep + Join(sep, b)
    decreases |a|
  {
    if |a| == 1 {
      assert (a + b)[1..] == b;
    } else {
      JoinAppend(sep, a[1..], b);
      assert (a + b)[1..] == a[1..] + b;
    }
  }

  /** Python's `s.split("\n")`: the pieces between line feeds, always at least one. */
  function SplitLines(s: string): (r: seq<string>)
    ensures |r| >= 1
    ensures forall k :: 0 <= k < |r| ==> '\n' !in r[k]
    decreases |s|
  {
    if |s| == 0 then [""]
    else
      var rest := SplitLines(s[1..]);
      if s[0] == '\n' then [""] + rest
      else [[s[0]] + rest[0]] + rest[1..]
  }

  /** Round trip: `"\n".join(s.split("\n")) == s`. */
  lemma {:induction false} JoinSplitLines(s: string)
    ensures Join("\n", SplitLines(s)) == s
    decreases |s|
  {
    if |s| > 0 {
      var rest := SplitLines(s[1..]);
      JoinSplitLines(s[1..]);
      if s[0] == '\n' {
        assert ([""] + rest)[1..] == rest;
      } else {
        var parts := [[s[0]] + rest[0]] + rest[1..];
        if |rest| > 1 {
          assert parts[1..] == rest[1..];
        }
        assert s == [s[0]] + s[1..];
      }
    }
  }

  function DigitChar(d: int): char
    requires 0 <= d < 10
  {
    (('0' as int) + d) as char
  }

  /** Decimal rendering of a natural number, as `str(n)` does. */
  function NatToString(n: nat): (r: string)
    ensures |r| >= 1 && (n >= 10 ==> |r| >= 2)
    ensures forall k :: 0 <= k < |r| ==> '0' <= r[k] <= '9'
    decreases n
  {
    if n < 10 then [DigitChar(n)] else NatToString(n / 10) + [DigitChar(n % 10)]
  }

  /** Decimal rendering of an integer, with a leading `-` when negative. */
  function IntToString(i: int): (r: string)
    ensures '_' !in r
    ensures |r| >= 1 && (r[0] == '-' <==> i < 0)
  {
    if i < 0 then "-" + NatToString(-i) else NatToString(i)
  }

  /** Distinct naturals have distinct decimal renderings. */
  lemma {:induction false} NatToStringInjective(a: nat, b: nat)
    requires NatToString(a) == NatToString(b)
    ensures a == b
    decreases a
  {
    if a >= 10 && b >= 10 {
      var sa, sb := NatToString(a), NatToString(b);
      assert sa[|sa| - 1] == sb[|sb| - 1];
      assert a % 10 == b % 10;
      assert NatToString(a / 10) == sa[..|sa| - 1] == sb[..|sb| - 1] == NatToString(b / 10);
      NatToStringInjective(a / 10, b / 10);
    }
  }

  /** Distinct integers have distinct renderings. */
  lemma IntToStringInjective(a: int, b: int)
    requires IntToString(a) == IntToString(b)
    ensures a == b
  {
    var sa, sb := IntToString(a), IntToString(b);
    if a < 0 && b < 0 {
      assert NatToString(-a) == sa[1..] == sb[1..] == NatToString(-b);
      NatToStringInjective(-a, -b);
    } else if a >= 0 && b >= 0 {
      NatToStringInjective(a, b);
    }
  }

  /** Index of the first occurrence of `c` in `w`. */
  function IndexOf(w: string, c: char): (k: nat)
    requires c in w
    ensures k < |w| && w[k] == c
  {
    if w[0] == c then 0 else 1 + IndexOf(w[1..], c)
  }

  lemma {:induction false} IndexOfMarker(x: string, y: string, c: char)
    requires c !in x
    ensures IndexOf(x + [c] + y, c) == |x|
  {
    if |x| > 0 {
      assert (x + [c] + y)[1..] == x[1..] + [c] + y;
      IndexOfMarker(x[1..], y, c);
    }
  }

  /** Splitting at the first occurrence of a marker character is unambiguous. */
  lemma SplitAtFirstMarker(x: string, y: string, u: string, v: string, c: char)
    requires c !in x && c !in u
    requires x + [c] + y == u + [c] + v
    ensures x == u && y == v
  {
    var w := x + [c] + y;
    IndexOfMarker(x, y, c);
    IndexOfMarker(u, v, c);
    assert x == w[..|x|] && u == w[..|u|];
    assert y == w[|x| + 1..] && v == w[|u| + 1..];
  }
}
