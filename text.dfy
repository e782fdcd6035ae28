/**
 * Character and string helpers with Python's meaning: the whitespace table
 * shared by `str.strip()` and the regular-expression class `\s`, and the
 * ASCII part of `str.upper()`.
 *
 * The functions carry no postconditions of their own; what they compute is
 * stated by the lemmas beside them, which callers invoke where they need it.
 */
module Text {

  /** Python's whitespace characters (the table behind `str.isspace`, which `\s` also uses). */
  predicate IsSpace(c: char)
  {
    var n := c as int;
    (0x09 <= n <= 0x0D) || (0x1C <= n <= 0x20) || n == 0x85 || n == 0xA0 || n == 0x1680
    || (0x2000 <= n <= 0x200A) || n == 0x2028 || n == 0x2029 || n == 0x202F
    || n == 0x205F || n == 0x3000
  }

  predicate AllSpace(s: string)
  {
    forall i :: 0 <= i < |s| ==> IsSpace(s[i])
  }

  /** The characters of `s` that are not whitespace, in their order. */
  function NonSpace(s: string): string
  {
    if s == [] then [] else (if IsSpace(s[0]) then [] else [s[0]]) + NonSpace(s[1..])
  }

  /** A character survives `NonSpace` exactly when it occurs and is not whitespace. */
  lemma {:induction false} NonSpaceMember(s: string, c: char)
    ensures c in NonSpace(s) <==> c in s && !IsSpace(c)
  {
    if s != [] {
      NonSpaceMember(s[1..], c);
      assert c in s <==> c == s[0] || c in s[1..];
    }
  }

  lemma {:induction false} NonSpaceAppend(a: string, b: string)
    ensures NonSpace(a + b) == NonSpace(a) + NonSpace(b)
  {
    if a != [] {
      assert (a + b)[1..] == a[1..] + b;
      NonSpaceAppend(a[1..], b);
    } else {
      assert a + b == b;
    }
  }

  lemma {:induction false} NonSpaceOfSpaces(s: string)
    requires AllSpace(s)
    ensures NonSpace(s) == []
  {
    if s != [] {
      NonSpaceOfSpaces(s[1..]);
    }
  }

  /** Multiplicities of non-whitespace characters survive `NonSpace`. */
  lemma {:induction false} NonSpaceCount(s: string, c: char)
    requires !IsSpace(c)
    ensures multiset(NonSpace(s))[c] == multiset(s)[c]
  {
    if s != [] {
      assert s == [s[0]] + s[1..];
      NonSpaceCount(s[1..], c);
    }
  }

  /** `str.lstrip()`. */
  function StripLeft(s: string): string
  {
    if s != [] && IsSpace(s[0]) then StripLeft(s[1..]) else s
  }

  /** `str.lstrip()` drops exactly the longest whitespace prefix. */
  lemma {:induction false} StripLeftSpec(s: string)
    ensures var r := StripLeft(s);
      |r| <= |s| && r == s[|s| - |r|..] && (r == [] || !IsSpace(r[0])) && AllSpace(s[..|s| - |r|])
  {
    if s != [] && IsSpace(s[0]) {
      StripLeftSpec(s[1..]);
      var r := StripLeft(s[1..]);
      assert s[..|s| - |r|] == [s[0]] + s[1..][..|s| - 1 - |r|];
    }
  }

  /** `str.rstrip()`. */
  function StripRight(s: string): string
  {
    if s != [] && IsSpace(s[|s| - 1]) then StripRight(s[..|s| - 1]) else s
  }

  /** `str.rstrip()` drops exactly the longest whitespace suffix. */
  lemma {:induction false} StripRightSpec(s: string)
    ensures var r := StripRight(s);
      |r| <= |s| && r == s[..|r|] && (r == [] || !IsSpace(r[|r| - 1])) && AllSpace(s[|r|..])
  {
    if s != [] && IsSpace(s[|s| - 1]) {
      StripRightSpec(s[..|s| - 1]);
      var r := StripRight(s[..|s| - 1]);
      assert s[|r|..] == s[..|s| - 1][|r|..] + [s[|s| - 1]];
    }
  }

  /** `str.strip()`. */
  function Strip(s: string): string
  {
    StripRight(StripLeft(s))
  }

  /**
   * `str.strip()` leaves no whitespace at either end, is empty exactly for
   * an all-whitespace string, and removes whitespace only.
   */
  lemma StripSpec(s: string)
    ensures var r := Strip(s);
      && (r == [] || (!IsSpace(r[0]) && !IsSpace(r[|r| - 1])))
      && (r == [] <==> AllSpace(s))
      && NonSpace(r) == NonSpace(s)
  {
    StripEnds(s);
    StripEmptyIff(s);
    StripKeepsText(s);
  }

  lemma StripEnds(s: string)
    ensures var r := Strip(s);
      r == [] || (!IsSpace(r[0]) && !IsSpace(r[|r| - 1]))
  {
    var t := StripLeft(s);
    var r := StripRight(t);
    StripLeftSpec(s);
    StripRightSpec(t);
    assert r != [] ==> r[0] == t[0];
  }

  lemma StripEmptyIff(s: string)
    ensures Strip(s) == [] <==> AllSpace(s)
  {
    var t := StripLeft(s);
    var r := StripRight(t);
    StripLeftSpec(s);
    StripRightSpec(t);
    if r == [] {
      // What the right strip removed is all of `t`; `t` cannot start with whitespace, so it is empty.
      assert t == t[|r|..];
      assert t == [];
      assert s[..|s| - |t|] == s;
    }
  }

  lemma StripKeepsText(s: string)
    ensures NonSpace(Strip(s)) == NonSpace(s)
  {
    var t := StripLeft(s);
    var r := StripRight(t);
    StripLeftSpec(s);
    StripRightSpec(t);
    var lead, trail := s[..|s| - |t|], t[|r|..];
    assert s == lead + t;
    assert t == r + trail;
    NonSpaceOfSpaces(lead);
    NonSpaceOfSpaces(trail);
    NonSpaceAppend(lead, t);
    NonSpaceAppend(r, trail);
  }

  /** A string without whitespace at either end is its own strip. */
  lemma StripTrimmed(s: string)
    requires s == [] || (!IsSpace(s[0]) && !IsSpace(s[|s| - 1]))
    ensures Strip(s) == s
  {
  }

  predicate IsAsciiLetter(c: char)
  {
    'A' <= c <= 'Z' || 'a' <= c <= 'z'
  }

  function UpperChar(c: char): char
  {
    if 'a' <= c <= 'z' then (c as int - 32) as char else c
  }

  /** `str.upper()` restricted to ASCII letters. */
  function Upper(s: string): string
  {
    seq(|s|, i requires 0 <= i < |s| => UpperChar(s[i]))
  }
}
