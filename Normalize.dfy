/** The two case transforms the form applies when a field loses focus
    (src/TagCard.jsx, `capitalizeName` and `capitalizeAll`). */
module Normalize {
  import opened JsString

  /** The character at `i` (or the end of the string) is a word character;
      positions outside the string count as non-word, as for `\b`. */
  predicate WordAt(s: string, i: int) {
    0 <= i < |s| && IsWordChar(s[i])
  }

  /** `\b` at position `i`: word-ness changes between `i - 1` and `i`. */
  predicate IsWordBoundary(s: string, i: int) {
    WordAt(s, i - 1) != WordAt(s, i)
  }

  /** Position `i` is matched by `/\b\w/g`. */
  predicate StartsWord(s: string, i: int) {
    0 <= i < |s| && IsWordBoundary(s, i) && IsWordChar(s[i])
  }

  /** The left-to-right scan that `str.replace(/\b\w/g, ...)` performs:
      `afterWord` says whether the previous character was a word character. */
  function CapitalizeFrom(s: string, afterWord: bool): (r: string)
    ensures |r| == |s|
  {
    if s == [] then []
    else
      [if !afterWord && IsWordChar(s[0]) then UpperChar(s[0]) else s[0]]
      + CapitalizeFrom(s[1..], IsWordChar(s[0]))
  }

  lemma {:induction false} CapitalizeFromAt(s: string, afterWord: bool, i: int)
    requires 0 <= i < |s|
    ensures CapitalizeFrom(s, afterWord)[i] ==
      if IsWordChar(s[i]) && (if i == 0 then !afterWord else !IsWordChar(s[i - 1]))
      then UpperChar(s[i]) else s[i]
  {
    if i > 0 {
      CapitalizeFromAt(s[1..], IsWordChar(s[0]), i - 1);
      assert s[1..][i - 1] == s[i];
      if i > 1 {
        assert s[1..][i - 2] == s[i - 1];
      }
    }
  }

  /** `capitalizeName`: upper-cases every word character that sits at a word
      boundary and leaves every other character alone. */
  function CapitalizeName(s: string): (r: string)
    ensures |r| == |s|
    ensures forall i :: 0 <= i < |s| ==> r[i] == if StartsWord(s, i) then UpperChar(s[i]) else s[i]
  {
    var r := CapitalizeFrom(s, false);
    forall i | 0 <= i < |s|
      ensures r[i] == if StartsWord(s, i) then UpperChar(s[i]) else s[i]
    {
      CapitalizeFromAt(s, false, i);
    }
    r
  }

  /** `capitalizeAll`: upper-cases the whole string. */
  function CapitalizeAll(s: string): (r: string)
    ensures |r| == |s|
    ensures forall i :: 0 <= i < |s| ==> !IsAsciiLower(r[i])
    ensures forall i :: 0 <= i < |s| ==> r[i] == UpperChar(s[i])
  {
    ToUpperCase(s)
  }

  /** Only a lower-case letter that starts a word changes, and it becomes
      upper case; the word structure of the string is unchanged. */
  lemma CapitalizeNameChangesOnlyWordStarts(s: string, i: int)
    requires 0 <= i < |s|
    ensures CapitalizeName(s)[i] != s[i] ==> StartsWord(s, i) && IsAsciiLower(s[i])
    ensures StartsWord(s, i) ==> !IsAsciiLower(CapitalizeName(s)[i])
    ensures IsWordChar(CapitalizeName(s)[i]) == IsWordChar(s[i])
  {
    CaseMappingKeepsClasses(s[i]);
  }

  /** Blurring the name field twice stores the same value as blurring once. */
  lemma CapitalizeNameIdempotent(s: string)
    ensures CapitalizeName(CapitalizeName(s)) == CapitalizeName(s)
  {
    var r := CapitalizeName(s);
    forall i | 0 <= i < |s| ensures CapitalizeName(r)[i] == r[i] {
      forall j | 0 <= j < |s| ensures IsWordChar(r[j]) == IsWordChar(s[j]) {
        CapitalizeNameChangesOnlyWordStarts(s, j);
      }
      assert StartsWord(r, i) == StartsWord(s, i);
      CaseMappingKeepsClasses(s[i]);
    }
  }

  /** Blurring a region field twice stores the same value as blurring once. */
  lemma CapitalizeAllIdempotent(s: string)
    ensures CapitalizeAll(CapitalizeAll(s)) == CapitalizeAll(s)
  {
    forall i | 0 <= i < |s| ensures UpperChar(UpperChar(s[i])) == UpperChar(s[i]) {
      CaseMappingKeepsClasses(s[i]);
    }
  }

  /** After `capitalizeName` every word starts with a character that is not
      a lower-case letter; a string already in that form is left unchanged. */
  lemma CapitalizeNameFixesTitleCase(s: string)
    requires forall i :: StartsWord(s, i) ==> !IsAsciiLower(s[i])
    ensures CapitalizeName(s) == s
  {
  }
}
