/**
 * The filename sanitiser `clean_filename` of download_Luchia.py: four
 * rewrites applied in a fixed order, and the proof that their result is in
 * a normal form that the sanitiser leaves alone.
 */
module Sanitizer {
  import opened Text

  /**
   * The class `[\/:*?<>|]`. Its backslash only escapes the slash, so a
   * backslash is not in the class.
   */
  const Forbidden: set<char> := {'/', ':', '*', '?', '<', '>', '|'}

  /** Every character of `chars` in `s` becomes `sub`. */
  function ReplaceAll(s: string, chars: set<char>, sub: char): string
  {
    if s == [] then [] else [if s[0] in chars then sub else s[0]] + ReplaceAll(s[1..], chars, sub)
  }

  /** Replacement is position by position: matched characters become `sub`, all others stay. */
  lemma {:induction false} ReplaceAllSpec(s: string, chars: set<char>, sub: char)
    ensures var r := ReplaceAll(s, chars, sub);
      |r| == |s| && forall i :: 0 <= i < |s| ==> r[i] == if s[i] in chars then sub else s[i]
  {
    if s != [] {
      ReplaceAllSpec(s[1..], chars, sub);
    }
  }

  /** Replacement keeps the count of every character it neither matches nor produces. */
  lemma {:induction false} ReplaceAllCount(s: string, chars: set<char>, sub: char, c: char)
    requires c !in chars && c != sub
    ensures multiset(ReplaceAll(s, chars, sub))[c] == multiset(s)[c]
  {
    if s != [] {
      assert s == [s[0]] + s[1..];
      ReplaceAllCount(s[1..], chars, sub, c);
    }
  }

  /** `str.replace(c, '')`. */
  function DeleteAll(s: string, c: char): string
  {
    if s == [] then [] else (if s[0] == c then [] else [s[0]]) + DeleteAll(s[1..], c)
  }

  /** After deletion no `c` is left, nothing new appears, and a string without `c` is unchanged. */
  lemma {:induction false} DeleteAllSpec(s: string, c: char)
    ensures c !in DeleteAll(s, c)
    ensures forall d :: d in DeleteAll(s, c) ==> d in s
    ensures c !in s ==> DeleteAll(s, c) == s
  {
    if s != [] {
      DeleteAllSpec(s[1..], c);
    }
  }

  /** Deleting `c` keeps the count of every other character. */
  lemma {:induction false} DeleteAllCount(s: string, c: char, d: char)
    requires d != c
    ensures multiset(DeleteAll(s, c))[d] == multiset(s)[d]
  {
    if s != [] {
      assert s == [s[0]] + s[1..];
      DeleteAllCount(s[1..], c, d);
    }
  }

  /**
   * Deletion works character by character: it distributes over
   * concatenation, so the remaining characters keep their order, and a
   * single character is dropped exactly when it is `c`.
   */
  lemma {:induction false} DeleteAllAppend(a: string, b: string, c: char)
    ensures DeleteAll(a + b, c) == DeleteAll(a, c) + DeleteAll(b, c)
    ensures |a| == 1 ==> DeleteAll(a, c) == (if a[0] == c then [] else a)
  {
    if a != [] {
      assert (a + b)[0] == a[0];
      assert (a + b)[1..] == a[1..] + b;
      DeleteAllAppend(a[1..], b, c);
      var head := if a[0] == c then [] else [a[0]];
      assert DeleteAll(a + b, c) == head + (DeleteAll(a[1..], c) + DeleteAll(b, c));
    } else {
      assert a + b == b;
    }
  }

  /** Every whitespace character is a plain space. */
  predicate OnlyPlainSpaces(s: string)
  {
    forall i :: 0 <= i < |s| && IsSpace(s[i]) ==> s[i] == ' '
  }

  /** No two neighbouring characters are both whitespace. */
  predicate NoDoubleSpace(s: string)
  {
    forall i, j :: 0 <= i < |s| && 0 <= j < |s| && j == i + 1 ==> !(IsSpace(s[i]) && IsSpace(s[j]))
  }

  /**
   * `re.sub(r'\s+', ' ', s)`, scanning left to right: each maximal
   * whitespace run becomes one space. `inRun` says that the space for the
   * current run has already been written.
   */
  function CollapseFrom(s: string, inRun: bool): string
  {
    if s == [] then []
    else if IsSpace(s[0]) then (if inRun then [] else [' ']) + CollapseFrom(s[1..], true)
    else [s[0]] + CollapseFrom(s[1..], false)
  }

  function Collapse(s: string): string
  {
    CollapseFrom(s, false)
  }

  /**
   * The collapsed string is single-spaced, starts with the input's first
   * character when that is not whitespace, and ends in non-whitespace when
   * the input does.
   */
  lemma {:induction false} CollapseFromSpec(s: string, inRun: bool)
    ensures var r := CollapseFrom(s, inRun);
      && OnlyPlainSpaces(r) && NoDoubleSpace(r)
      && (inRun ==> r == [] || !IsSpace(r[0]))
      && (s != [] && !IsSpace(s[0]) ==> r != [] && r[0] == s[0])
      && (s != [] && !IsSpace(s[|s| - 1]) ==> r != [] && !IsSpace(r[|r| - 1]) && r[|r| - 1] == s[|s| - 1])
  {
    CollapseFromSpaced(s, inRun);
    if s != [] && !IsSpace(s[|s| - 1]) {
      CollapseFromLast(s, inRun);
    }
  }

  lemma {:induction false} CollapseFromSpaced(s: string, inRun: bool)
    ensures var r := CollapseFrom(s, inRun);
      && OnlyPlainSpaces(r) && NoDoubleSpace(r)
      && (inRun ==> r == [] || !IsSpace(r[0]))
  {
    if s != [] {
      var r := CollapseFrom(s, inRun);
      var rest := CollapseFrom(s[1..], IsSpace(s[0]));
      CollapseFromSpaced(s[1..], IsSpace(s[0]));
      var head := if IsSpace(s[0]) then (if inRun then [] else [' ']) else [s[0]];
      assert r == head + rest;
      assert forall i :: |head| <= i < |r| ==> r[i] == rest[i - |head|];
    }
  }

  lemma {:induction false} CollapseFromLast(s: string, inRun: bool)
    requires s != [] && !IsSpace(s[|s| - 1])
    ensures var r := CollapseFrom(s, inRun);
      r != [] && r[|r| - 1] == s[|s| - 1]
  {
    var rest := CollapseFrom(s[1..], IsSpace(s[0]));
    if |s| > 1 {
      CollapseFromLast(s[1..], IsSpace(s[0]));
      var head := if IsSpace(s[0]) then (if inRun then [] else [' ']) else [s[0]];
      assert CollapseFrom(s, inRun) == head + rest;
    }
  }

  /** Collapsing only rewrites whitespace. */
  lemma {:induction false} CollapseKeepsNonSpace(s: string, inRun: bool)
    ensures NonSpace(CollapseFrom(s, inRun)) == NonSpace(s)
  {
    if s != [] {
      var rest := CollapseFrom(s[1..], IsSpace(s[0]));
      CollapseKeepsNonSpace(s[1..], IsSpace(s[0]));
      if IsSpace(s[0]) {
        NonSpaceAppend(if inRun then [] else [' '], rest);
      } else {
        NonSpaceAppend([s[0]], rest);
      }
    }
  }

  /** A string already in single-space form is left as it is. */
  lemma {:induction false} CollapseFixes(s: string, inRun: bool)
    requires OnlyPlainSpaces(s) && NoDoubleSpace(s)
    requires inRun ==> s == [] || !IsSpace(s[0])
    ensures CollapseFrom(s, inRun) == s
  {
    if s != [] {
      assert OnlyPlainSpaces(s[1..]) && NoDoubleSpace(s[1..]);
      if IsSpace(s[0]) {
        assert |s| > 1 ==> !IsSpace(s[1]);
      }
      CollapseFixes(s[1..], IsSpace(s[0]));
      assert s == [s[0]] + s[1..];
    }
  }

  /** A whitespace run becomes one space, or nothing when its space is already written. */
  lemma {:induction false} CollapseSpaceRun(w: string, inRun: bool)
    requires w != [] && AllSpace(w)
    ensures CollapseFrom(w, inRun) == if inRun then [] else " "
  {
    if |w| > 1 {
      CollapseSpaceRun(w[1..], true);
    } else {
      assert CollapseFrom(w[1..], true) == [];
    }
  }

  /**
   * Collapsing splits at a non-whitespace character: what follows it is
   * collapsed as a fresh start, so runs on either side are handled apart.
   */
  lemma {:induction false} CollapseAppend(x: string, y: string, inRun: bool)
    requires x != [] && !IsSpace(x[|x| - 1])
    ensures CollapseFrom(x + y, inRun) == CollapseFrom(x, inRun) + CollapseFrom(y, false)
  {
    assert (x + y)[0] == x[0];
    assert (x + y)[1..] == x[1..] + y;
    if |x| == 1 {
      assert CollapseFrom(x[1..], false) == [];
    } else {
      CollapseAppend(x[1..], y, IsSpace(x[0]));
    }
  }

  /** A whitespace run followed by non-whitespace becomes one space before it, unless already written. */
  lemma {:induction false} CollapseRunThen(w: string, y: string, inRun: bool)
    requires w != [] && AllSpace(w)
    requires y != [] && !IsSpace(y[0])
    ensures CollapseFrom(w + y, inRun) == (if inRun then [] else " ") + CollapseFrom(y, false)
  {
    assert (w + y)[0] == w[0];
    assert (w + y)[1..] == w[1..] + y;
    if |w| > 1 {
      CollapseRunThen(w[1..], y, true);
    } else {
      assert w[1..] + y == y;
    }
  }

  /** No forbidden character and no double quote. */
  predicate SafeChars(s: string)
  {
    forall i :: 0 <= i < |s| ==> s[i] !in Forbidden && s[i] != '"'
  }

  /** The normal form of a sanitised name. */
  predicate IsCleanName(r: string)
  {
    && SafeChars(r)
    && '\n' !in r
    && (r == [] || (!IsSpace(r[0]) && !IsSpace(r[|r| - 1])))
    && OnlyPlainSpaces(r)
    && NoDoubleSpace(r)
  }

  /** The first two rewrites: forbidden characters to `_`, then quotes deleted. */
  function Unforbidden(s: string): string
  {
    DeleteAll(ReplaceAll(s, Forbidden, '_'), '"')
  }

  lemma UnforbiddenSafe(s: string)
    ensures SafeChars(Unforbidden(s))
  {
    var replaced := ReplaceAll(s, Forbidden, '_');
    var r := DeleteAll(replaced, '"');
    ReplaceAllSpec(s, Forbidden, '_');
    DeleteAllSpec(replaced, '"');
    forall i | 0 <= i < |r|
      ensures r[i] !in Forbidden && r[i] != '"'
    {
      assert r[i] in r;
      var j :| 0 <= j < |replaced| && replaced[j] == r[i];
    }
  }

  /** The third rewrite: newlines to spaces. */
  function SpacedNewlines(s: string): string
  {
    ReplaceAll(s, {'\n'}, ' ')
  }

  /** `clean_filename` (download_Luchia.py:79-85). */
  function CleanFilename(s: string): string
  {
    Collapse(Strip(SpacedNewlines(Unforbidden(s))))
  }

  /**
   * The sanitised name has no forbidden character, no quote and no newline,
   * no whitespace at either end, and every whitespace run in it is a single
   * plain space.
   */
  lemma CleanFilenameIsClean(s: string)
    ensures IsCleanName(CleanFilename(s))
  {
    UnforbiddenSafe(s);
    ReplaceAllSpec(Unforbidden(s), {'\n'}, ' ');
    CleanFormPreserved(SpacedNewlines(Unforbidden(s)));
  }

  /** Two strings with the same non-whitespace text, the second's whitespace all plain spaces. */
  lemma SafeCharsByText(x: string, r: string)
    requires SafeChars(x) && OnlyPlainSpaces(r)
    requires NonSpace(r) == NonSpace(x)
    ensures SafeChars(r)
  {
    forall i | 0 <= i < |r|
      ensures r[i] !in Forbidden && r[i] != '"'
    {
      if !IsSpace(r[i]) {
        NonSpaceMember(r, r[i]);
        NonSpaceMember(x, r[i]);
      }
    }
  }

  lemma PlainSpacesNoNewline(r: string)
    requires OnlyPlainSpaces(r)
    ensures '\n' !in r
  {
  }

  /** The last two rewrites keep a string free of forbidden characters and normalise its whitespace. */
  lemma CleanFormPreserved(spaced: string)
    requires SafeChars(spaced)
    ensures IsCleanName(Collapse(Strip(spaced)))
  {
    var stripped := Strip(spaced);
    var r := Collapse(stripped);
    StripSpec(spaced);
    CollapseFromSpec(stripped, false);
    CollapseKeepsNonSpace(stripped, false);
    SafeCharsByText(spaced, r);
    PlainSpacesNoNewline(r);
  }

  /** Text with nothing to substitute, delete or turn into a space is only stripped and collapsed. */
  lemma CleanFilenameOfPlain(t: string)
    requires SafeChars(t) && '\n' !in t
    ensures CleanFilename(t) == Collapse(Strip(t))
  {
    SafeIsUnforbidden(t);
    ReplaceAllSpec(t, {'\n'}, ' ');
    assert SpacedNewlines(t) == t;
  }

  /** The first two rewrites leave text without forbidden characters and quotes as it is. */
  lemma SafeIsUnforbidden(t: string)
    requires SafeChars(t)
    ensures Unforbidden(t) == t
  {
    ReplaceAllSpec(t, Forbidden, '_');
    assert ReplaceAll(t, Forbidden, '_') == t;
    DeleteAllSpec(t, '"');
  }

  /** Turning newlines into spaces works piece by piece. */
  lemma {:induction false} SpacedNewlinesAppend(a: string, b: string)
    ensures SpacedNewlines(a + b) == SpacedNewlines(a) + SpacedNewlines(b)
  {
    if a != [] {
      assert (a + b)[0] == a[0];
      assert (a + b)[1..] == a[1..] + b;
      SpacedNewlinesAppend(a[1..], b);
      var head := [if a[0] in {'\n'} then ' ' else a[0]];
      assert SpacedNewlines(a + b) == head + (SpacedNewlines(a[1..]) + SpacedNewlines(b));
    } else {
      assert a + b == b;
    }
  }

  /** A name already in the normal form passes through every rewrite unchanged. */
  lemma CleanFilenameFixesCleanName(t: string)
    requires IsCleanName(t)
    ensures CleanFilename(t) == t
  {
    CleanFilenameOfPlain(t);
    StripTrimmed(t);
    CollapseFixes(t, false);
  }

  /**
   * Any run of whitespace between two clean words, newlines included,
   * becomes exactly one space: it is neither kept as it is nor dropped.
   */
  lemma CleanFilenameJoinsWords(x: string, w: string, y: string)
    requires IsCleanName(x) && IsCleanName(y) && x != [] && y != []
    requires w != [] && AllSpace(w)
    ensures CleanFilename(x + w + y) == x + " " + y
  {
    var t := x + w + y;
    assert SafeChars(t) by {
      forall i | 0 <= i < |t|
        ensures t[i] !in Forbidden && t[i] != '"'
      {
        if i < |x| { assert t[i] == x[i]; }
        else if i < |x| + |w| { assert t[i] == w[i - |x|]; }
        else { assert t[i] == y[i - |x| - |w|]; }
      }
    }
    SafeIsUnforbidden(t);
    var spaced := SpacedNewlines(w);
    ReplaceAllSpec(w, {'\n'}, ' ');
    assert AllSpace(spaced);
    ReplaceAllSpec(x, {'\n'}, ' ');
    assert SpacedNewlines(x) == x;
    ReplaceAllSpec(y, {'\n'}, ' ');
    assert SpacedNewlines(y) == y;
    SpacedNewlinesAppend(x + w, y);
    SpacedNewlinesAppend(x, w);
    assert SpacedNewlines(t) == x + spaced + y;
    StripCollapseJoinsWords(x, spaced, y);
  }

  /** Strip then collapse turns a whitespace run between two clean words into one space. */
  lemma StripCollapseJoinsWords(x: string, w: string, y: string)
    requires IsCleanName(x) && IsCleanName(y) && x != [] && y != []
    requires w != [] && AllSpace(w)
    ensures Collapse(Strip(x + w + y)) == x + " " + y
  {
    var t := x + w + y;
    assert t[0] == x[0] && t[|t| - 1] == y[|y| - 1];
    StripTrimmed(t);
    assert t == x + (w + y);
    CollapseAppend(x, w + y, false);
    CollapseFixes(x, false);
    CollapseRunThen(w, y, false);
    CollapseFixes(y, false);
  }


  /** Sanitising twice is sanitising once. */
  lemma CleanFilenameIdempotent(s: string)
    ensures CleanFilename(CleanFilename(s)) == CleanFilename(s)
  {
    CleanFilenameIsClean(s);
    CleanFilenameFixesCleanName(CleanFilename(s));
  }

  /** Turning newlines into spaces leaves the non-whitespace text as it is. */
  lemma {:induction false} NewlinesKeepNonSpace(s: string)
    ensures NonSpace(SpacedNewlines(s)) == NonSpace(s)
  {
    if s != [] {
      NewlinesKeepNonSpace(s[1..]);
    }
  }

  /**
   * Apart from forbidden characters becoming `_` and quotes vanishing, the
   * sanitiser changes whitespace only: the non-whitespace text of its result
   * is that of the input after the first two rewrites.
   */
  lemma CleanFilenameKeepsText(s: string)
    ensures NonSpace(CleanFilename(s)) == NonSpace(Unforbidden(s))
  {
    var spaced := SpacedNewlines(Unforbidden(s));
    NewlinesKeepNonSpace(Unforbidden(s));
    StripSpec(spaced);
    CollapseKeepsNonSpace(Strip(spaced), false);
  }

  /**
   * Every character that is not whitespace, not in the forbidden class, not a
   * quote and not `_` (a backslash, a letter, a parenthesis, ...) occurs in
   * the result exactly as often as in the input.
   */
  lemma CleanFilenameKeepsOtherChars(s: string, c: char)
    requires !IsSpace(c) && c !in Forbidden && c != '"' && c != '_'
    ensures multiset(CleanFilename(s))[c] == multiset(s)[c]
  {
    CleanFilenameKeepsText(s);
    NonSpaceCount(CleanFilename(s), c);
    NonSpaceCount(Unforbidden(s), c);
    DeleteAllCount(ReplaceAll(s, Forbidden, '_'), '"', c);
    ReplaceAllCount(s, Forbidden, '_', c);
  }
}
