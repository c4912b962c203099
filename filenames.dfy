/** The chapter filename sanitiser (`clean_filename`, scrape_chapters.py):
    drop the characters `<>:"/\|?*`, turn spaces into underscores, strip.
    The names it produces are the `filename` entries that chunk assembly
    later reads. */
module Filenames {
  import opened Text

  /** The character class `[<>:"/\\|?*]`. */
  const FORBIDDEN: set<char> := {'<', '>', ':', '"', '/', '\\', '|', '?', '*'}

  /** `re.sub(r'[<>:"/\\|?*]', '', title)`: the other characters, in order. */
  function RemoveForbidden(s: string): (r: string)
    ensures |r| <= |s|
    ensures forall c :: c in r <==> c in s && c !in FORBIDDEN
    decreases |s|
  {
    if s == [] then []
    else (if s[0] in FORBIDDEN then [] else [s[0]]) + RemoveForbidden(s[1..])
  }

  /** `.replace(" ", "_")`: position by position, a space becomes an underscore. */
  function ReplaceSpaces(s: string): (r: string)
    ensures |r| == |s|
    ensures forall i :: 0 <= i < |s| ==> r[i] == if s[i] == ' ' then '_' else s[i]
    decreases |s|
  {
    if s == [] then []
    else [if s[0] == ' ' then '_' else s[0]] + ReplaceSpaces(s[1..])
  }

  /** `clean_filename`: the result holds no forbidden character and no
      space, has no leading or trailing whitespace, and is no longer than
      the title. */
  function CleanFilename(title: string): (r: string)
    ensures forall c :: c in r ==> c !in FORBIDDEN
    ensures ' ' !in r
    ensures IsStripped(r)
    ensures |r| <= |title|
  {
    var removed := RemoveForbidden(title);
    ReplaceSpacesChars(removed);
    StripChars(ReplaceSpaces(removed));
    Strip(ReplaceSpaces(removed))
  }

  /** Removal works character by character: it distributes over concatenation. */
  lemma {:induction false} RemoveForbiddenAppend(a: string, b: string)
    ensures RemoveForbidden(a + b) == RemoveForbidden(a) + RemoveForbidden(b)
    decreases |a|
  {
    if a == [] {
      assert a + b == b;
    } else {
      assert (a + b)[1..] == a[1..] + b;
      RemoveForbiddenAppend(a[1..], b);
    }
  }

  /** A string with nothing to remove is left as it is. */
  lemma {:induction false} RemoveForbiddenClean(s: string)
    requires forall c :: c in s ==> c !in FORBIDDEN
    ensures RemoveForbidden(s) == s
    decreases |s|
  {
    if s != [] {
      assert forall c :: c in s[1..] ==> c in s;
      RemoveForbiddenClean(s[1..]);
    }
  }

  lemma ReplaceSpacesClean(s: string)
    requires ' ' !in s
    ensures ReplaceSpaces(s) == s
  {
    assert forall i :: 0 <= i < |s| ==> s[i] != ' ';
  }

  /** After the replacement no space is left, and no new character appears
      except the underscore. */
  lemma ReplaceSpacesChars(s: string)
    ensures ' ' !in ReplaceSpaces(s)
    ensures forall c :: c in ReplaceSpaces(s) ==> c in s || c == '_'
  {
    var r := ReplaceSpaces(s);
    forall c | c in r
      ensures c != ' ' && (c in s || c == '_')
    {
      var i :| 0 <= i < |r| && r[i] == c;
      assert s[i] in s;
    }
  }

  /** Stripping only drops characters. */
  lemma StripChars(s: string)
    ensures forall c :: c in Strip(s) ==> c in s
  {
    StripIsSlice(s);
    var i: nat :| i + |Strip(s)| <= |s| && Strip(s) == s[i..i + |Strip(s)|];
    forall c | c in Strip(s)
      ensures c in s
    {
      var k :| 0 <= k < |Strip(s)| && Strip(s)[k] == c;
      assert s[i + k] == c;
    }
  }

  /** The characters kept are the title's own, except that spaces became underscores. */
  lemma CleanFilenameChars(title: string)
    ensures forall c :: c in CleanFilename(title) ==> (c in title && c !in FORBIDDEN) || c == '_'
  {
    var removed := RemoveForbidden(title);
    ReplaceSpacesChars(removed);
    StripChars(ReplaceSpaces(removed));
  }

  /** Cleaning a clean name changes nothing. */
  lemma CleanFilenameIdempotent(title: string)
    ensures CleanFilename(CleanFilename(title)) == CleanFilename(title)
  {
    var c := CleanFilename(title);
    RemoveForbiddenClean(c);
    ReplaceSpacesClean(c);
    StripStripped(c);
  }
}
