/** The search box of the front end's tables: the typed text is trimmed and
    lower-cased before it becomes the table's filter. Trimming is defined for
    any set of white-space characters and applied with the set that
    String.prototype.trim removes. */
module TextFilter {

  /** The characters String.prototype.trim removes: white space and line
      terminators. */
  const SpaceChars: set<char> := {
    ' ', '\t', '\n', '\r', '\U{000B}', '\U{000C}', '\U{00A0}', '\U{FEFF}', '\U{1680}',
    '\U{2000}', '\U{2001}', '\U{2002}', '\U{2003}', '\U{2004}', '\U{2005}', '\U{2006}',
    '\U{2007}', '\U{2008}', '\U{2009}', '\U{200A}',
    '\U{2028}', '\U{2029}', '\U{202F}', '\U{205F}', '\U{3000}'
  }

  /** Where the text proper starts: the first position from `i` on that
      holds no white space, or the end of the text. */
  function FirstNonSpace(s: string, space: set<char>, i: nat): (r: nat)
    requires i <= |s|
    ensures i <= r <= |s|
    ensures r == |s| || s[r] !in space
    ensures forall k :: i <= k < r ==> s[k] in space
    decreases |s| - i
  {
    if i < |s| && s[i] in space then FirstNonSpace(s, space, i + 1) else i
  }

  /** Where the text proper ends: the last position down from `j`, but not
      below `lo`, that follows a character other than white space. */
  function LastNonSpace(s: string, space: set<char>, lo: nat, j: nat): (r: nat)
    requires lo <= j <= |s|
    ensures lo <= r <= j
    ensures r == lo || s[r - 1] !in space
    ensures forall k :: r <= k < j ==> s[k] in space
  {
    if lo < j && s[j - 1] in space then LastNonSpace(s, space, lo, j - 1) else j
  }

  /** `r` is the part of `s` starting at `i`, and only white space of `s`
      lies before and after it. */
  ghost predicate SpaceAround(s: string, r: string, i: int, space: set<char>)
  {
    0 <= i <= |s| - |r|
    && (forall k :: 0 <= k < |r| ==> r[k] == s[i + k])
    && (forall k :: 0 <= k < i ==> s[k] in space)
    && (forall k :: i + |r| <= k < |s| ==> s[k] in space)
  }

  /** Trimming with a given set of white-space characters. */
  function TrimWith(s: string, space: set<char>): (r: string)
    ensures r == [] || (r[0] !in space && r[|r| - 1] !in space)
    ensures exists i :: SpaceAround(s, r, i, space)
  {
    var i := FirstNonSpace(s, space, 0);
    var j := LastNonSpace(s, space, i, |s|);
    var r := s[i..j];
    assert SpaceAround(s, r, i, space);
    r
  }

  /** trim: the text between its leading and its trailing white space. */
  function Trim(s: string): (r: string)
    ensures r == [] || (r[0] !in SpaceChars && r[|r| - 1] !in SpaceChars)
    ensures exists i :: SpaceAround(s, r, i, SpaceChars)
  {
    TrimWith(s, SpaceChars)
  }

  /** toLowerCase on one character: the letters A to Z become a to z. */
  function LowerChar(c: char): (r: char)
    ensures !('A' <= r <= 'Z')
    ensures 'A' <= c <= 'Z' ==> r as int == c as int + 32
    ensures !('A' <= c <= 'Z') ==> r == c
  {
    if 'A' <= c <= 'Z' then (c as int - 'A' as int + 'a' as int) as char else c
  }

  /** Lowering changes no white-space character and makes none. */
  lemma LowerKeepsSpace(c: char)
    ensures LowerChar(c) in SpaceChars <==> c in SpaceChars
  {
  }

  /** toLowerCase: every character lowered, in place. */
  function ToLower(s: string): (r: string)
    ensures |r| == |s|
    ensures forall k :: 0 <= k < |s| ==> r[k] == LowerChar(s[k])
  {
    seq(|s|, k requires 0 <= k < |s| => LowerChar(s[k]))
  }

  /** The filter stored for a typed text. */
  function Normalize(s: string): string
  {
    ToLower(Trim(s))
  }

  /** Trimming a text that neither starts nor ends with white space keeps it. */
  lemma TrimTrimmed(s: string, space: set<char>)
    requires s == [] || (s[0] !in space && s[|s| - 1] !in space)
    ensures TrimWith(s, space) == s
  {
    assert FirstNonSpace(s, space, 0) == 0;
    assert LastNonSpace(s, space, 0, |s|) == |s|;
  }

  lemma LowerTwice(f: string)
    requires forall k :: 0 <= k < |f| ==> !('A' <= f[k] <= 'Z')
    ensures ToLower(f) == f
  {
  }

  /** Lowering a text that has no white space at either end makes none. */
  lemma LowerKeepsEnds(t: string)
    requires t == [] || (t[0] !in SpaceChars && t[|t| - 1] !in SpaceChars)
    ensures var f := ToLower(t); f == [] || (f[0] !in SpaceChars && f[|f| - 1] !in SpaceChars)
  {
    if t != [] {
      LowerKeepsSpace(t[0]);
      LowerKeepsSpace(t[|t| - 1]);
    }
  }

  /** The stored filter has no white space at either end and no upper-case
      letter A to Z. */
  lemma NormalizedShape(s: string)
    ensures var f := Normalize(s);
            (f == [] || (f[0] !in SpaceChars && f[|f| - 1] !in SpaceChars))
            && forall k :: 0 <= k < |f| ==> !('A' <= f[k] <= 'Z')
  {
    LowerKeepsEnds(Trim(s));
  }

  /** Typing the stored filter again stores the same filter. */
  lemma NormalizeIdempotent(s: string)
    ensures Normalize(Normalize(s)) == Normalize(s)
  {
    var f := Normalize(s);
    NormalizedShape(s);
    assert Trim(f) == f by {
      TrimTrimmed(f, SpaceChars);
    }
    LowerTwice(f);
  }
}
