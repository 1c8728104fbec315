/** The strings the tag card derives from the form: the exported file name,
    the name and location lines of the preview card, and the share caption
    (src/TagCard.jsx). */
module Derived {
  import opened JsString
  import opened Normalize
  import opened Opt

  /** `name.replace(/\s+/g, '-').toLowerCase()`, the part of the exported
      file name that comes from the name field. It holds no whitespace and
      no upper-case letter, is never longer than the name, and a name
      without whitespace is only lower-cased. */
  function Slug(name: string): (slug: string)
    ensures NoSpace(slug)
    ensures forall i :: 0 <= i < |slug| ==> !IsAsciiUpper(slug[i])
    ensures |slug| <= |name|
    ensures NoSpace(name) ==> slug == ToLowerCase(name)
  {
    var replaced := ReplaceSpaceRuns(name);
    ReplaceSpaceRunsNoSpace(name);
    ReplaceSpaceRunsIdentity(name);
    forall i | 0 <= i < |replaced| ensures !IsSpace(ToLowerCase(replaced)[i]) {
      CaseMappingKeepsClasses(replaced[i]);
    }
    ToLowerCase(replaced)
  }

  /** The name under which the card is downloaded or shared: the fixed
      prefix, the slug and the extension. It holds no whitespace and is at
      most 12 characters longer than the name. */
  function ExportFileName(name: string): (file: string)
    ensures NoSpace(file)
    ensures |file| <= |name| + 12
  {
    var slug := Slug(name);
    var file := "nhf-tag-" + slug + ".png";
    forall i | 0 <= i < |file| ensures !IsSpace(file[i]) {
      if 8 <= i < 8 + |slug| {
        assert file[i] == slug[i - 8];
      }
    }
    file
  }

  lemma {:induction false} ToLowerCaseAppend(x: string, y: string)
    ensures ToLowerCase(x + y) == ToLowerCase(x) + ToLowerCase(y)
  {
    var l := ToLowerCase(x + y);
    assert forall i :: 0 <= i < |x| ==> (x + y)[i] == x[i];
    assert forall i :: |x| <= i < |x| + |y| ==> (x + y)[i] == y[i - |x|];
    assert l == ToLowerCase(x) + ToLowerCase(y);
  }

  /** A maximal whitespace run of the name becomes exactly one hyphen in
      the slug, the text around it being slugged on its own. */
  lemma SlugAroundRun(a: string, w: string, b: string)
    requires w != [] && AllSpace(w)
    requires a == [] || !IsSpace(a[|a| - 1])
    requires b == [] || !IsSpace(b[0])
    ensures Slug(a + w + b) == Slug(a) + "-" + Slug(b)
  {
    var ra, rb := ReplaceSpaceRuns(a), ReplaceSpaceRuns(b);
    MaximalRunBecomesOneHyphen(a, w, b);
    ToLowerCaseAppend(ra + "-", rb);
    ToLowerCaseAppend(ra, "-");
    assert ToLowerCase("-") == "-";
    assert Slug(a + w + b) == ToLowerCase(ra + "-" + rb);
  }

  /** `a` and `b` differ at most in the case of their letters. */
  predicate SameIgnoringCase(a: string, b: string) {
    |a| == |b| && forall i :: 0 <= i < |a| ==> LowerChar(a[i]) == LowerChar(b[i])
  }

  lemma SameIgnoringCaseSpaces(a: string, b: string, i: int)
    requires SameIgnoringCase(a, b) && 0 <= i < |a|
    ensures IsSpace(a[i]) == IsSpace(b[i])
  {
    CaseMappingKeepsClasses(a[i]);
    CaseMappingKeepsClasses(b[i]);
  }

  /** Skipping a leading whitespace run keeps two case-insensitively equal
      strings equal. */
  lemma {:induction false} SkipSpacesIgnoringCase(a: string, b: string)
    requires SameIgnoringCase(a, b)
    ensures SameIgnoringCase(SkipSpaces(a), SkipSpaces(b))
  {
    if a != [] {
      SameIgnoringCaseSpaces(a, b, 0);
      if IsSpace(a[0]) {
        assert SameIgnoringCase(a[1..], b[1..]) by {
          forall i | 0 <= i < |a| - 1 ensures LowerChar(a[1..][i]) == LowerChar(b[1..][i]) {
            assert a[1..][i] == a[i + 1] && b[1..][i] == b[i + 1];
          }
        }
        SkipSpacesIgnoringCase(a[1..], b[1..]);
      }
    }
  }

  /** The slug only depends on the name up to the case of its letters. */
  lemma {:induction false} SlugIgnoresCase(a: string, b: string)
    requires SameIgnoringCase(a, b)
    ensures Slug(a) == Slug(b)
    decreases |a|
  {
    if a != [] {
      SameIgnoringCaseSpaces(a, b, 0);
      if IsSpace(a[0]) {
        SkipSpacesIgnoringCase(a, b);
        SlugIgnoresCase(SkipSpaces(a), SkipSpaces(b));
        ToLowerCaseAppend("-", ReplaceSpaceRuns(SkipSpaces(a)));
        ToLowerCaseAppend("-", ReplaceSpaceRuns(SkipSpaces(b)));
      } else {
        assert SameIgnoringCase(a[1..], b[1..]) by {
          forall i | 0 <= i < |a| - 1 ensures LowerChar(a[1..][i]) == LowerChar(b[1..][i]) {
            assert a[1..][i] == a[i + 1] && b[1..][i] == b[i + 1];
          }
        }
        SlugIgnoresCase(a[1..], b[1..]);
        ToLowerCaseAppend([a[0]], ReplaceSpaceRuns(a[1..]));
        ToLowerCaseAppend([b[0]], ReplaceSpaceRuns(b[1..]));
      }
    }
  }

  /** The exported file name is the same whether or not the name field was
      blurred (and so capitalised) before export. */
  lemma ExportFileNameIgnoresBlur(name: string)
    ensures ExportFileName(CapitalizeName(name)) == ExportFileName(name)
  {
    var c := CapitalizeName(name);
    forall i | 0 <= i < |name| ensures LowerChar(c[i]) == LowerChar(name[i]) {
      CaseMappingKeepsClasses(name[i]);
    }
    SlugIgnoresCase(c, name);
  }

  const NamePlaceholder := "Your Name"

  /** The name line of the card, `capitalizeName(name) || "Your Name"`: the
      placeholder appears exactly when the name field is empty. */
  function NameLine(name: string): (line: string)
    ensures name == "" ==> line == NamePlaceholder
    ensures name != "" ==> line == CapitalizeName(name)
  {
    var c := CapitalizeName(name);
    if c == "" then NamePlaceholder else c
  }

  /** The location line of the card. It is rendered only when `lga ||
      stateName` is truthy, and reads `capitalizeAll(lga)`, then `", "`
      when both are non-empty, then `capitalizeAll(stateName)`. */
  function LocationLabel(lga: string, stateName: string): (loc: Option<string>)
    ensures loc.Some? <==> lga != "" || stateName != ""
    ensures loc.Some? && (lga == "" || stateName == "") ==> |loc.value| == |lga| + |stateName|
    ensures loc.Some? && lga != "" && stateName != "" ==> |loc.value| == |lga| + |stateName| + 2
    ensures loc.Some? ==>
      (loc.value == CapitalizeAll(lga) + ", " + CapitalizeAll(stateName) <==> lga != "" && stateName != "")
    ensures loc.Some? && (lga == "" || stateName == "") ==>
      loc.value == CapitalizeAll(lga) + CapitalizeAll(stateName)
  {
    if lga != "" || stateName != "" then
      Some(CapitalizeAll(lga) + (if lga != "" && stateName != "" then ", " else "") + CapitalizeAll(stateName))
    else None
  }

  const ShareTitle := "NHF Cohort II Selection Announcement"

  /** The fixed opening of the share caption, with the code points the
      template literal holds: U+201A U+00C4 U+00EC where an en dash was
      meant, and U+F8FF U+00FC U+00F4 U+00E5 U+F8FF U+00FC U+00ED U+00F6
      where two emoji were meant. */
  const CaptionIntro := "I'm thrilled and grateful to share that I've been selected as a National Health Fellow \U{201A}\U{C4}\U{EC} Cohort II! \U{F8FF}\U{FC}\U{F4}\U{E5}\U{F8FF}\U{FC}\U{ED}\U{F6}\n\nJoin me in strengthening Primary Healthcare! - "

  /** The text passed to the native share sheet: the fixed opening, then
      the person and the place. */
  function Caption(name: string, lga: string, stateName: string): (text: string)
    ensures |text| > |CaptionIntro| && text[..|CaptionIntro|] == CaptionIntro
  {
    CaptionIntro + CapitalizeName(name) + " from " + CapitalizeAll(lga) + ", " + CapitalizeAll(stateName)
  }

  /** Blurring the fields does not change what the card or the caption
      show: both apply the same normalisation themselves. */
  lemma PreviewIgnoresBlur(name: string, lga: string, stateName: string)
    ensures NameLine(CapitalizeName(name)) == NameLine(name)
    ensures LocationLabel(CapitalizeAll(lga), CapitalizeAll(stateName)) == LocationLabel(lga, stateName)
    ensures Caption(CapitalizeName(name), CapitalizeAll(lga), CapitalizeAll(stateName)) == Caption(name, lga, stateName)
  {
    CapitalizeNameIdempotent(name);
    CapitalizeAllIdempotent(lga);
    CapitalizeAllIdempotent(stateName);
  }

  /** Once all three text fields are filled, the caption names the person
      and the place exactly as the card does. */
  lemma CaptionMatchesCard(name: string, lga: string, stateName: string)
    requires name != "" && lga != "" && stateName != ""
    ensures Caption(name, lga, stateName) == CaptionIntro + NameLine(name) + " from " + LocationLabel(lga, stateName).value
  {
  }
}
