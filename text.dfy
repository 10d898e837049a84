/**
 * The two string operations the variable layer uses on names and values:
 * lower-casing a name before a catalog lookup (`strings.ToLower`) and
 * comparing a value against a keyword without regard to case
 * (`strings.EqualFold`).
 */
module Text {

  predicate IsUpperAscii(c: char) { 'A' <= c <= 'Z' }

  /** Lower-case one ASCII letter; every other character is left as it is. */
  function LowerChar(c: char): char
  {
    if IsUpperAscii(c) then (c as int + 32) as char else c
  }

  /** `strings.ToLower`, restricted to ASCII letters. */
  function Lower(s: string): (r: string)
    ensures |r| == |s|
  {
    if s == [] then [] else [LowerChar(s[0])] + Lower(s[1..])
  }

  /** A string with no upper-case ASCII letter, the form every catalog key has. */
  predicate IsLower(s: string)
  {
    forall i :: 0 <= i < |s| ==> !IsUpperAscii(s[i])
  }

  lemma {:induction false} LowerAt(s: string, i: nat)
    requires i < |s|
    ensures Lower(s)[i] == LowerChar(s[i])
  {
    if i > 0 {
      LowerAt(s[1..], i - 1);
    }
  }

  /** Lower-casing yields a lower-case string, and leaves a lower-case string alone. */
  lemma {:induction false} LowerIsLower(s: string)
    ensures IsLower(Lower(s))
    ensures IsLower(s) <==> Lower(s) == s
  {
    forall i | 0 <= i < |s| ensures !IsUpperAscii(Lower(s)[i]) {
      LowerAt(s, i);
    }
    if IsLower(s) {
      forall i | 0 <= i < |s| ensures Lower(s)[i] == s[i] {
        LowerAt(s, i);
      }
    }
    if Lower(s) == s {
      forall i | 0 <= i < |s| ensures !IsUpperAscii(s[i]) {
        LowerAt(s, i);
      }
    }
  }

  /** Lower-casing twice is lower-casing once, so a lookup by any spelling of a name agrees. */
  lemma {:induction false} LowerIdempotent(s: string)
    ensures Lower(Lower(s)) == Lower(s)
  {
    LowerIsLower(s);
    LowerIsLower(Lower(s));
  }

  /**
   * The representative of a character's case-folding orbit, for the orbits
   * that contain an ASCII letter. Unicode simple case folding puts LATIN SMALL
   * LETTER LONG S (U+017F) with 's' and 'S', and KELVIN SIGN (U+212A) with 'k'
   * and 'K'; every other ASCII letter shares its orbit only with its other case.
   */
  function FoldChar(c: char): char
  {
    if IsUpperAscii(c) then LowerChar(c)
    else if c == '\U{017F}' then 's'
    else if c == '\U{212A}' then 'k'
    else c
  }

  /**
   * `strings.EqualFold(s, word)` for an ASCII `word`: the same number of
   * characters, pairwise in the same case-folding orbit. Every comparison the
   * variable layer makes is against an ASCII keyword.
   */
  predicate EqualFold(s: string, word: string)
  {
    |s| == |word| && forall i :: 0 <= i < |s| ==> FoldChar(s[i]) == FoldChar(word[i])
  }

  /** A keyword whose letters are ASCII and fold with nothing but their other case: no 's' and no 'k'. */
  predicate PlainWord(word: string)
  {
    forall i :: 0 <= i < |word| ==> word[i] as int < 128 && word[i] !in {'s', 'S', 'k', 'K'}
  }

  /** Against an ASCII character outside the 's' and 'k' orbits, folding and lower-casing agree. */
  lemma FoldAgainstPlain(c: char, d: char)
    requires d as int < 128 && d !in {'s', 'S', 'k', 'K'}
    ensures FoldChar(c) == FoldChar(d) <==> LowerChar(c) == LowerChar(d)
  {
  }

  /** Folding a string's characters does not depend on how the string was capitalised. */
  lemma EqualFoldIgnoresCase(s: string, word: string)
    ensures EqualFold(s, word) <==> EqualFold(Lower(s), Lower(word))
  {
    forall i | 0 <= i < |s| ensures FoldChar(Lower(s)[i]) == FoldChar(s[i]) {
      LowerAt(s, i);
    }
    forall i | 0 <= i < |word| ensures FoldChar(Lower(word)[i]) == FoldChar(word[i]) {
      LowerAt(word, i);
    }
  }

  /**
   * Against a plain keyword, `EqualFold` is equality after ASCII
   * lower-casing: no character outside ASCII matches one of its letters.
   */
  lemma EqualFoldPlainWord(s: string, word: string)
    requires PlainWord(word)
    ensures EqualFold(s, word) <==> Lower(s) == Lower(word)
  {
    if |s| == |word| {
      forall i | 0 <= i < |s|
        ensures FoldChar(s[i]) == FoldChar(word[i]) <==> Lower(s)[i] == Lower(word)[i]
      {
        LowerAt(s, i);
        LowerAt(word, i);
        FoldAgainstPlain(s[i], word[i]);
      }
      if Lower(s) != Lower(word) {
        var j :| 0 <= j < |s| && Lower(s)[j] != Lower(word)[j];
      }
    }
  }
}
