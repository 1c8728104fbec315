/** The JavaScript string built-ins that the tag card relies on.
    Character classes follow ECMAScript exactly; case mapping covers the
    ASCII letters only (every other character is left as it is). */
module JsString {

  /** `\w` in a regular expression without the `u` flag: [A-Za-z0-9_]. */
  predicate IsWordChar(c: char) {
    ('a' <= c <= 'z') || ('A' <= c <= 'Z') || ('0' <= c <= '9') || c == '_'
  }

  /** `\s` in a regular expression, which is also exactly the set of
      characters that `String.prototype.trim` removes: ECMAScript's
      WhiteSpace and LineTerminator code points. */
  predicate IsSpace(c: char) {
    if c < '\U{A0}' then c == ' ' || '\t' <= c <= '\r'  // tab, LF, VT, FF, CR
    else
      c == '\U{A0}' || c == '\U{1680}' || ('\U{2000}' <= c <= '\U{200A}')
      || c == '\U{2028}' || c == '\U{2029}' || c == '\U{202F}' || c == '\U{205F}'
      || c == '\U{3000}' || c == '\U{FEFF}'
  }

  predicate IsAsciiLower(c: char) { 'a' <= c <= 'z' }

  predicate IsAsciiUpper(c: char) { 'A' <= c <= 'Z' }

  predicate NoSpace(s: string) {
    forall i :: 0 <= i < |s| ==> !IsSpace(s[i])
  }

  predicate AllSpace(s: string) {
    forall i :: 0 <= i < |s| ==> IsSpace(s[i])
  }

  /** `toUpperCase` of one character, restricted to ASCII. */
  function UpperChar(c: char): (u: char)
    ensures !IsAsciiLower(u)
    ensures IsAsciiLower(c) ==> IsAsciiUpper(u) && u as int == c as int - 32
    ensures !IsAsciiLower(c) ==> u == c
  {
    if IsAsciiLower(c) then (c as int - 32) as char else c
  }

  /** `toLowerCase` of one character, restricted to ASCII. */
  function LowerChar(c: char): (l: char)
    ensures !IsAsciiUpper(l)
    ensures IsAsciiUpper(c) ==> IsAsciiLower(l) && l as int == c as int + 32
    ensures !IsAsciiUpper(c) ==> l == c
  {
    if IsAsciiUpper(c) then (c as int + 32) as char else c
  }

  /** Case mapping never turns a word character into a non-word character or
      a space into a non-space, nor the other way round. */
  lemma CaseMappingKeepsClasses(c: char)
    ensures IsWordChar(UpperChar(c)) == IsWordChar(c)
    ensures IsWordChar(LowerChar(c)) == IsWordChar(c)
    ensures IsSpace(UpperChar(c)) == IsSpace(c)
    ensures IsSpace(LowerChar(c)) == IsSpace(c)
    ensures UpperChar(UpperChar(c)) == UpperChar(c)
    ensures LowerChar(UpperChar(c)) == LowerChar(c)
  {
  }

  /** `String.prototype.toUpperCase`, restricted to ASCII: no lower-case
      letter is left, every other character is kept, and the result equals
      the input up to letter case. */
  function ToUpperCase(s: string): (r: string)
    ensures |r| == |s|
    ensures forall i :: 0 <= i < |r| ==> !IsAsciiLower(r[i])
    ensures forall i :: 0 <= i < |s| && !IsAsciiLower(s[i]) ==> r[i] == s[i]
    ensures forall i :: 0 <= i < |s| ==> LowerChar(r[i]) == LowerChar(s[i])
  {
    seq(|s|, i requires 0 <= i < |s| => UpperChar(s[i]))
  }

  /** `String.prototype.toLowerCase`, restricted to ASCII: no upper-case
      letter is left, every other character is kept, and the result equals
      the input up to letter case. */
  function ToLowerCase(s: string): (r: string)
    ensures |r| == |s|
    ensures forall i :: 0 <= i < |r| ==> !IsAsciiUpper(r[i])
    ensures forall i :: 0 <= i < |s| && !IsAsciiUpper(s[i]) ==> r[i] == s[i]
    ensures forall i :: 0 <= i < |s| ==> UpperChar(r[i]) == UpperChar(s[i])
  {
    seq(|s|, i requires 0 <= i < |s| => LowerChar(s[i]))
  }

  /** Drops the leading whitespace, as `trimStart` does. */
  function TrimStart(s: string): (r: string)
    ensures |r| <= |s|
    ensures r == [] || !IsSpace(r[0])
  {
    if s != [] && IsSpace(s[0]) then TrimStart(s[1..]) else s
  }

  /** Drops the trailing whitespace, as `trimEnd` does. */
  function TrimEnd(s: string): (r: string)
    ensures |r| <= |s|
    ensures r == [] || !IsSpace(r[|r| - 1])
  {
    if s != [] && IsSpace(s[|s| - 1]) then TrimEnd(s[..|s| - 1]) else s
  }

  /** `trimStart` removes only a leading run of whitespace. */
  lemma {:induction false} TrimStartSuffix(s: string)
    ensures var r := TrimStart(s); r == s[|s| - |r|..] && AllSpace(s[..|s| - |r|])
  {
    if s != [] && IsSpace(s[0]) {
      TrimStartSuffix(s[1..]);
      var r := TrimStart(s);
      assert s[1..][|s| - 1 - |r|..] == s[|s| - |r|..];
      var run, rest := s[..|s| - |r|], s[1..][..|s| - 1 - |r|];
      forall i | 0 <= i < |run| ensures IsSpace(run[i]) {
        if i > 0 {
          assert run[i] == rest[i - 1];
        }
      }
    }
  }

  /** `trimEnd` removes only a trailing run of whitespace. */
  lemma {:induction false} TrimEndPrefix(s: string)
    ensures var r := TrimEnd(s); r == s[..|r|] && AllSpace(s[|r|..])
  {
    if s != [] && IsSpace(s[|s| - 1]) {
      TrimEndPrefix(s[..|s| - 1]);
      var r := TrimEnd(s);
      assert s[..|s| - 1][..|r|] == s[..|r|];
      forall i | 0 <= i < |s| - |r| ensures IsSpace(s[|r|..][i]) {
        if i < |s| - 1 - |r| {
          assert s[|r|..][i] == s[..|s| - 1][|r|..][i];
        }
      }
    }
  }

  /** `String.prototype.trim`: the result neither starts nor ends with
      whitespace, is empty exactly when the string is all whitespace, and a
      string without whitespace is returned as it is. */
  function Trim(s: string): (r: string)
    ensures |r| <= |s|
    ensures r == [] || (!IsSpace(r[0]) && !IsSpace(r[|r| - 1]))
    ensures r == [] <==> AllSpace(s)
    ensures NoSpace(s) ==> r == s
  {
    var t := TrimStart(s);
    TrimStartEmpty(s);
    TrimEndEmpty(t);
    TrimEndPrefix(t);
    assert AllSpace(t) <==> t == [];
    TrimEnd(t)
  }

  /** `!s.trim()`: the trimmed string is empty, hence falsy. A string is
      blank exactly when every one of its characters is whitespace; in
      particular the empty string is blank. */
  function IsBlank(s: string): (blank: bool)
    ensures blank <==> AllSpace(s)
  {
    Trim(s) == ""
  }

  lemma {:induction false} TrimStartEmpty(s: string)
    ensures TrimStart(s) == [] <==> AllSpace(s)
  {
    if s != [] && IsSpace(s[0]) {
      TrimStartEmpty(s[1..]);
      assert forall i :: 1 <= i < |s| ==> s[i] == s[1..][i - 1];
    }
  }

  lemma {:induction false} TrimEndEmpty(s: string)
    ensures TrimEnd(s) == [] <==> AllSpace(s)
  {
    if s != [] && IsSpace(s[|s| - 1]) {
      TrimEndEmpty(s[..|s| - 1]);
      assert forall i :: 0 <= i < |s| - 1 ==> s[i] == s[..|s| - 1][i];
    }
  }

  /** The leading whitespace run of `s` removed: what `\s+` consumes when it
      matches at the start of `s`. */
  function SkipSpaces(s: string): (r: string)
    ensures |r| <= |s|
    ensures r == [] || !IsSpace(r[0])
    ensures s != [] && IsSpace(s[0]) ==> |r| < |s|
  {
    if s != [] && IsSpace(s[0]) then SkipSpaces(s[1..]) else s
  }

  /** What is left after skipping is a suffix of the string. */
  lemma {:induction false} SkipSpacesSuffix(s: string)
    ensures SkipSpaces(s) == s[|s| - |SkipSpaces(s)|..]
  {
    if s != [] && IsSpace(s[0]) {
      SkipSpacesSuffix(s[1..]);
    }
  }

  /** Skipping consumes the whole string exactly when it is all whitespace. */
  lemma {:induction false} SkipSpacesEmpty(s: string)
    ensures SkipSpaces(s) == [] <==> AllSpace(s)
  {
    if s != [] && IsSpace(s[0]) {
      SkipSpacesEmpty(s[1..]);
      assert forall i :: 1 <= i < |s| ==> s[i] == s[1..][i - 1];
    }
  }

  /** `s.replace(/\s+/g, '-')`: the global scan replaces each maximal run
      of whitespace by a single hyphen and copies every other character, so
      the result is never longer than the string. */
  function ReplaceSpaceRuns(s: string): (r: string)
    ensures |r| <= |s|
    decreases |s|
  {
    if s == [] then []
    else if IsSpace(s[0]) then "-" + ReplaceSpaceRuns(SkipSpaces(s))
    else [s[0]] + ReplaceSpaceRuns(s[1..])
  }

  /** A whitespace run that continues into the next string is skipped as a
      whole, and skipping stops at the first non-space character. */
  lemma {:induction false} SkipSpacesAppend(x: string, y: string)
    ensures AllSpace(x) ==> SkipSpaces(x + y) == SkipSpaces(y)
    ensures !AllSpace(x) ==> SkipSpaces(x + y) == SkipSpaces(x) + y
  {
    if x != [] {
      assert (x + y)[0] == x[0];
      assert (x + y)[1..] == x[1..] + y;
      if IsSpace(x[0]) {
        SkipSpacesAppend(x[1..], y);
      }
    } else {
      assert x + y == y;
    }
  }

  /** The replacement never leaves whitespace behind. */
  lemma {:induction false} ReplaceSpaceRunsNoSpace(s: string)
    ensures NoSpace(ReplaceSpaceRuns(s))
    decreases |s|
  {
    if s != [] {
      if IsSpace(s[0]) {
        ReplaceSpaceRunsNoSpace(SkipSpaces(s));
      } else {
        ReplaceSpaceRunsNoSpace(s[1..]);
      }
    }
  }

  /** A string without whitespace is copied unchanged. */
  lemma {:induction false} ReplaceSpaceRunsIdentity(s: string)
    ensures NoSpace(s) ==> ReplaceSpaceRuns(s) == s
  {
    if s != [] && NoSpace(s) {
      ReplaceSpaceRunsIdentity(s[1..]);
    }
  }

  /** A non-empty run of whitespace becomes exactly one hyphen. */
  lemma SpaceRunIsOneHyphen(w: string)
    requires w != [] && AllSpace(w)
    ensures ReplaceSpaceRuns(w) == "-"
  {
    SkipSpacesEmpty(w);
  }

  /** The replacement distributes over concatenation whenever the seam does
      not split a whitespace run. */
  lemma {:induction false} ReplaceSpaceRunsAppend(x: string, y: string)
    requires x == [] || y == [] || !IsSpace(x[|x| - 1]) || !IsSpace(y[0])
    ensures ReplaceSpaceRuns(x + y) == ReplaceSpaceRuns(x) + ReplaceSpaceRuns(y)
    decreases |x|, 1
  {
    if x == [] {
      assert x + y == y;
    } else if IsSpace(x[0]) {
      AppendAfterRun(x, y);
    } else {
      AppendAfterChar(x, y);
    }
  }

  lemma {:induction false} AppendAfterRun(x: string, y: string)
    requires x != [] && IsSpace(x[0])
    requires y == [] || !IsSpace(x[|x| - 1]) || !IsSpace(y[0])
    ensures ReplaceSpaceRuns(x + y) == ReplaceSpaceRuns(x) + ReplaceSpaceRuns(y)
    decreases |x|, 0
  {
    assert (x + y)[0] == x[0];
    var rest := SkipSpaces(x);
    assert ReplaceSpaceRuns(x + y) == "-" + ReplaceSpaceRuns(SkipSpaces(x + y));
    if AllSpace(x) {
      assert SkipSpaces(x + y) == y by { WholeRunThenRest(x, y); }
      assert rest == [] by { SkipSpacesEmpty(x); }
    } else {
      assert SkipSpaces(x + y) == rest + y by { SkipSpacesAppend(x, y); }
      assert rest != [] by { SkipSpacesEmpty(x); }
      assert rest[|rest| - 1] == x[|x| - 1] by { SkipSpacesSuffix(x); }
      ReplaceSpaceRunsAppend(rest, y);
    }
  }

  /** Skipping a whole whitespace string and then a non-space start skips
      exactly that string. */
  lemma WholeRunThenRest(x: string, y: string)
    requires x != [] && AllSpace(x)
    requires y == [] || !IsSpace(y[0])
    ensures SkipSpaces(x + y) == y
  {
    SkipSpacesAppend(x, y);
  }

  lemma {:induction false} AppendAfterChar(x: string, y: string)
    requires x != [] && !IsSpace(x[0])
    requires y == [] || !IsSpace(x[|x| - 1]) || !IsSpace(y[0])
    ensures ReplaceSpaceRuns(x + y) == ReplaceSpaceRuns(x) + ReplaceSpaceRuns(y)
    decreases |x|, 0
  {
    var xy := x + y;
    assert xy[0] == x[0];
    assert xy[1..] == x[1..] + y;
    if |x| > 1 {
      assert x[1..][|x[1..]| - 1] == x[|x| - 1];
    }
    ReplaceSpaceRunsAppend(x[1..], y);
  }

  /** A whitespace run followed by a non-space start becomes one hyphen
      followed by the replacement of the rest. */
  lemma RunThenRest(w: string, b: string)
    requires w != [] && AllSpace(w)
    requires b == [] || !IsSpace(b[0])
    ensures ReplaceSpaceRuns(w + b) == "-" + ReplaceSpaceRuns(b)
  {
    assert IsSpace(w[|w| - 1]);
    ReplaceSpaceRunsAppend(w, b);
    SpaceRunIsOneHyphen(w);
  }

  /** Each maximal run of whitespace, wherever it sits, is replaced by
      exactly one hyphen and the text on either side is treated on its own. */
  lemma MaximalRunBecomesOneHyphen(a: string, w: string, b: string)
    requires w != [] && AllSpace(w)
    requires a == [] || !IsSpace(a[|a| - 1])
    requires b == [] || !IsSpace(b[0])
    ensures ReplaceSpaceRuns(a + w + b) == ReplaceSpaceRuns(a) + "-" + ReplaceSpaceRuns(b)
  {
    var wb := w + b;
    assert a + w + b == a + wb;
    RunThenRest(w, b);
    assert wb[0] == w[0];
    ReplaceSpaceRunsAppend(a, wb);
    var ra, rb := ReplaceSpaceRuns(a), ReplaceSpaceRuns(b);
    assert ra + ("-" + rb) == ra + "-" + rb;
  }

  /** `pat` occurs in `s` starting at position `i`. */
  predicate OccursAt(s: string, pat: string, i: int) {
    0 <= i <= |s| - |pat| && s[i..i + |pat|] == pat
  }

  /** Dropping a first position that does not hold `pat` loses no
      occurrence. */
  lemma OccursAfterFirst(s: string, pat: string)
    requires |s| >= |pat| && s[..|pat|] != pat
    ensures (exists i :: OccursAt(s, pat, i)) <==> (exists j :: OccursAt(s[1..], pat, j))
  {
    if exists i :: OccursAt(s, pat, i) {
      var i :| OccursAt(s, pat, i);
      assert i != 0;
      assert s[1..][i - 1..i - 1 + |pat|] == s[i..i + |pat|];
      assert OccursAt(s[1..], pat, i - 1);
    }
    if exists j :: OccursAt(s[1..], pat, j) {
      var j :| OccursAt(s[1..], pat, j);
      assert s[j + 1..j + 1 + |pat|] == s[1..][j..j + |pat|];
      assert OccursAt(s, pat, j + 1);
    }
  }

  /** `s.match('image.*')`: the pattern is not anchored and `.*` may match
      nothing, so the test succeeds exactly when `pat` occurs in `s`. The
      scan tries every starting position from the left. */
  function Matches(s: string, pat: string): (found: bool)
    ensures found <==> exists i :: OccursAt(s, pat, i)
    decreases |s|
  {
    if |s| < |pat| then false
    else if s[..|pat|] == pat then assert OccursAt(s, pat, 0); true
    else OccursAfterFirst(s, pat); Matches(s[1..], pat)
  }
}
