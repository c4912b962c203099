/** Scene segmentation of a chapter (`split_into_scenes`, chunk_chapters.py).
    The chapter is first cut by Python's `re.split` with the pattern
    `\n\s*(SEP)\s*\n`, where SEP is `\*[\s\*]*\*|—+|–+|_hv_`; the cut is an
    oracle here (`reSplit`), and `IsReSplitOf` states the shape its output has.
    Each part is then stripped, and separator tokens and empty parts dropped. */
module Scenes {
  import opened Text

  const EM_DASH: char := '\U{2014}'
  const EN_DASH: char := '\U{2013}'

  /** The full-string recogniser `^(\*[\s\*]*\*|—+|–+|_hv_)$` applied to a
      stripped part: an asterisk followed by `[\s\*]*\*`; or a non-empty run
      of em dashes; or of en dashes; or `_hv_`. */
  predicate IsSeparatorToken(t: string) {
    || (|t| >= 1 && t[0] == '*' && IsAsteriskTail(t[1..]))
    || IsRunOf(t, EM_DASH)
    || IsRunOf(t, EN_DASH)
    || t == "_hv_"
  }

  /** `[\s\*]*\*` as a full match: asterisks and whitespace, ending in an asterisk. */
  predicate IsAsteriskTail(u: string)
    decreases |u|
  {
    && |u| >= 1
    && (IsWhitespace(u[0]) || u[0] == '*')
    && (if |u| == 1 then u[0] == '*' else IsAsteriskTail(u[1..]))
  }

  /** `c+` as a full match. */
  predicate IsRunOf(t: string, c: char)
    decreases |t|
  {
    |t| >= 1 && t[0] == c && (|t| == 1 || IsRunOf(t[1..], c))
  }

  /** An asterisk tail ends in an asterisk. */
  lemma {:induction false} AsteriskTailEnd(u: string)
    requires IsAsteriskTail(u)
    ensures u[|u| - 1] == '*'
    decreases |u|
  {
    if |u| > 1 {
      AsteriskTailEnd(u[1..]);
    }
  }

  lemma {:induction false} RunOfEnd(t: string, c: char)
    requires IsRunOf(t, c)
    ensures t[|t| - 1] == c
    decreases |t|
  {
    if |t| > 1 {
      RunOfEnd(t[1..], c);
    }
  }

  /** What the loop keeps of one part: its strip, unless that is empty or a separator. */
  function KeepPart(part: string): seq<string> {
    var p := Strip(part);
    if IsSeparatorToken(p) || p == "" then [] else [p]
  }

  /** The scenes kept from the parts, in order. */
  function KeptScenes(parts: seq<string>): seq<string>
    decreases |parts|
  {
    if parts == [] then [] else KeptScenes(parts[..|parts| - 1]) + KeepPart(parts[|parts| - 1])
  }

  predicate IsScene(s: string) {
    s != "" && Strip(s) == s && !IsSeparatorToken(s)
  }

  /** Every kept scene is non-empty, equal to its own strip, and not a separator token. */
  lemma {:induction false} KeptScenesWellFormed(parts: seq<string>)
    ensures forall k :: 0 <= k < |KeptScenes(parts)| ==> IsScene(KeptScenes(parts)[k])
    decreases |parts|
  {
    if parts != [] {
      KeptScenesWellFormed(parts[..|parts| - 1]);
      StripIdempotent(parts[|parts| - 1]);
    }
  }

  /** Keeping distributes over concatenation of part lists. */
  lemma {:induction false} KeptScenesAppend(a: seq<string>, b: seq<string>)
    ensures KeptScenes(a + b) == KeptScenes(a) + KeptScenes(b)
    decreases |b|
  {
    if b != [] {
      var b' := b[..|b| - 1];
      assert (a + b)[..|a + b| - 1] == a + b';
      KeptScenesAppend(a, b');
    } else {
      assert a + b == a;
    }
  }

  /** The even-indexed parts of a `re.split` result: the text between matches. */
  function Pieces(parts: seq<string>): seq<string>
    decreases |parts|
  {
    if |parts| <= 1 then parts else [parts[0]] + Pieces(parts[2..])
  }

  /** Every odd-indexed part is a captured separator. */
  predicate CapturesAreSeparators(parts: seq<string>)
    decreases |parts|
  {
    |parts| < 2 || (IsSeparatorToken(parts[1]) && CapturesAreSeparators(parts[2..]))
  }

  /** A separator token neither starts nor ends with whitespace, so it is
      its own strip, and it contributes no scene. */
  lemma SeparatorDropped(t: string)
    requires IsSeparatorToken(t)
    ensures KeepPart(t) == []
  {
    if t[0] == '*' {
      AsteriskTailEnd(t[1..]);
    } else if IsRunOf(t, EM_DASH) {
      RunOfEnd(t, EM_DASH);
    } else if IsRunOf(t, EN_DASH) {
      RunOfEnd(t, EN_DASH);
    }
    StripStripped(t);
  }

  lemma KeptSingle(p: string)
    ensures KeptScenes([p]) == KeepPart(p)
  {
    assert [p][..0] == [];
  }

  lemma KeptPair(p: string, q: string)
    ensures KeptScenes([p, q]) == KeepPart(p) + KeepPart(q)
  {
    assert [p, q][..1] == [p];
    KeptSingle(p);
  }

  lemma SplitTwo(s: seq<string>)
    requires |s| >= 2
    ensures s == [s[0], s[1]] + s[2..]
  {
  }

  lemma KeptPairThen(p: string, q: string, rest: seq<string>)
    ensures KeptScenes([p, q] + rest) == KeepPart(p) + KeepPart(q) + KeptScenes(rest)
  {
    KeptScenesAppend([p, q], rest);
    KeptPair(p, q);
  }

  lemma KeptOneThen(p: string, rest: seq<string>)
    ensures KeptScenes([p] + rest) == KeepPart(p) + KeptScenes(rest)
  {
    KeptScenesAppend([p], rest);
    KeptSingle(p);
  }

  lemma KeptDropSecond(p: string, q: string, rest: seq<string>)
    requires KeepPart(q) == []
    ensures KeptScenes([p, q] + rest) == KeepPart(p) + KeptScenes(rest)
  {
    KeptPairThen(p, q, rest);
    assert KeepPart(p) + KeepPart(q) == KeepPart(p);
  }

  /** Captured separators never become scenes: the scenes come from the
      pieces between matches alone. */
  lemma {:induction false} CapturesDropped(parts: seq<string>)
    requires CapturesAreSeparators(parts)
    ensures KeptScenes(parts) == KeptScenes(Pieces(parts))
    decreases |parts|
  {
    if |parts| >= 2 {
      var p0, p1, rest := parts[0], parts[1], parts[2..];
      SplitTwo(parts);
      CapturesDropped(rest);
      SeparatorDropped(p1);
      KeptDropSecond(p0, p1, rest);
      KeptOneThen(p0, Pieces(rest));
      assert Pieces(parts) == [p0] + Pieces(rest);
    } else {
      assert Pieces(parts) == parts;
    }
  }

  /** The text re-assembled from `re.split` parts and, for each match, the
      whitespace matched by the two `\s*` around its captured separator. */
  function Rebuild(parts: seq<string>, pads: seq<(string, string)>): string
    requires |parts| == 2 * |pads| + 1
    decreases |pads|
  {
    if |pads| == 0 then parts[0]
    else parts[0] + "\n" + pads[0].0 + parts[1] + pads[0].1 + "\n" + Rebuild(parts[2..], pads[1..])
  }

  /** `parts` has the shape of `re.split(pattern, text)`: pieces alternate
      with captures, each match being a line feed, whitespace, the captured
      separator, whitespace and a line feed. (Which matches `re` picks is
      not modelled: this is necessary, not sufficient.) */
  ghost predicate IsReSplitOf(text: string, parts: seq<string>, pads: seq<(string, string)>) {
    && |parts| == 2 * |pads| + 1
    && text == Rebuild(parts, pads)
    && CapturesAreSeparators(parts)
    && forall j :: 0 <= j < |pads| ==> AllWhitespace(pads[j].0) && AllWhitespace(pads[j].1)
  }

  /** `split_into_scenes`: strip every part, skip separator tokens and empty parts. */
  method SplitIntoScenes(text: string, reSplit: string -> seq<string>) returns (scenes: seq<string>)
    ensures scenes == KeptScenes(reSplit(text))
  {
    var parts := reSplit(text);
    scenes := [];
    for i := 0 to |parts|
      invariant scenes == KeptScenes(parts[..i])
    {
      assert parts[..i + 1][..i] == parts[..i];
      var part := Strip(parts[i]);
      if IsSeparatorToken(part) {
        continue;
      }
      if part != "" {
        scenes := scenes + [part];
      }
    }
    assert parts[..|parts|] == parts;
  }

  /** Without a separator match the split is the one part `[text]`: the
      result is its strip, or nothing when that is empty or is itself a
      separator token. */
  lemma NoSeparatorMatch(text: string, parts: seq<string>, pads: seq<(string, string)>)
    requires IsReSplitOf(text, parts, pads) && pads == []
    ensures KeptScenes(parts) == (if Strip(text) == "" || IsSeparatorToken(Strip(text)) then [] else [Strip(text)])
  {
    assert parts == [text];
    KeptSingle(text);
  }

  lemma ExampleRebuild()
    ensures Rebuild(["Para A.", "***", "Para B."], [("\n", "\n")]) == "Para A.\n\n***\n\nPara B."
  {
    var parts := ["Para A.", "***", "Para B."];
    assert parts[2..] == ["Para B."];
  }

  lemma ExampleKeep(p: string)
    requires p == "Para A." || p == "Para B."
    ensures KeepPart(p) == [p]
  {
    assert !IsWhitespace(p[0]) && !IsWhitespace(p[|p| - 1]);
    StripStripped(p);
    assert p[0] != '*' && p[0] != EM_DASH && p[0] != EN_DASH;
  }

  /** The chapter of the worked example splits into two scenes around `***`. */
  lemma ExampleSplit()
    ensures IsReSplitOf("Para A.\n\n***\n\nPara B.", ["Para A.", "***", "Para B."], [("\n", "\n")])
    ensures KeptScenes(["Para A.", "***", "Para B."]) == ["Para A.", "Para B."]
  {
    var parts := ["Para A.", "***", "Para B."];
    ExampleRebuild();
    assert IsAsteriskTail("**");
    assert IsSeparatorToken("***");
    assert CapturesAreSeparators(parts[2..]);
    assert AllWhitespace("\n");
    assert parts == ["Para A.", "***"] + ["Para B."];
    KeptScenesAppend(["Para A.", "***"], ["Para B."]);
    KeptPair("Para A.", "***");
    KeptSingle("Para B.");
    SeparatorDropped("***");
    ExampleKeep("Para A.");
    ExampleKeep("Para B.");
  }
}
