/** Worked examples of the strings the tag card derives from a filled-in
    form. */
module Examples {
  import opened JsString
  import opened Normalize
  import opened Opt
  import opened Derived

  /** A first and a last name separated by one space, such as
      "Ahmed Sani", are exported as `nhf-tag-<first>-<last>.png` in lower
      case ("nhf-tag-ahmed-sani.png"). */
  lemma ExportFileNameOfTwoWords(first: string, last: string)
    requires first != [] && last != [] && NoSpace(first) && NoSpace(last)
    ensures ExportFileName(first + " " + last) ==
            "nhf-tag-" + ToLowerCase(first) + "-" + ToLowerCase(last) + ".png"
  {
    var name := first + " " + last;
    SlugAroundRun(first, " ", last);
    var lower := ToLowerCase(first) + "-" + ToLowerCase(last);
    assert Slug(name) == lower;
    assert ExportFileName(name) == "nhf-tag-" + Slug(name) + ".png";
    assert "nhf-tag-" + lower + ".png" == "nhf-tag-" + ToLowerCase(first) + "-" + ToLowerCase(last) + ".png";
  }

  /** "kano municipal" and "kano" are shown as "KANO MUNICIPAL, KANO". */
  lemma LocationLabelExample()
    ensures LocationLabel("kano municipal", "kano") == Some("KANO MUNICIPAL, KANO")
  {
    assert CapitalizeAll("kano") == "KANO" by {
      assert ToUpperCase("kano") == "KANO";
    }
    assert CapitalizeAll("kano municipal") == "KANO MUNICIPAL" by {
      assert ToUpperCase("kano municipal") == "KANO MUNICIPAL";
    }
    assert "KANO MUNICIPAL" + ", " + "KANO" == "KANO MUNICIPAL, KANO";
  }

  /** A first word starts upper case exactly after the capitalisation. */
  function Capitalized(word: string): string
    requires word != []
  {
    [UpperChar(word[0])] + word[1..]
  }

  /** Blurring a name of two words (made of letters, digits or `_`) upper-cases
      the first character of each word and nothing else. */
  lemma CapitalizeTwoWords(first: string, last: string)
    requires first != [] && last != []
    requires forall i :: 0 <= i < |first| ==> IsWordChar(first[i])
    requires forall i :: 0 <= i < |last| ==> IsWordChar(last[i])
    ensures CapitalizeName(first + " " + last) == Capitalized(first) + " " + Capitalized(last)
  {
    var s := first + " " + last;
    var e := Capitalized(first) + " " + Capitalized(last);
    var r := CapitalizeName(s);
    var n := |first|;
    forall i | 0 <= i < |s| ensures r[i] == e[i] {
      if i < n {
        assert s[i] == first[i] && e[i] == Capitalized(first)[i];
        if i > 0 {
          assert s[i - 1] == first[i - 1];
        }
      } else if i == n {
        assert s[i] == ' ' && e[i] == ' ';
      } else {
        assert s[i] == last[i - n - 1] && e[i] == Capitalized(last)[i - n - 1];
        assert s[i - 1] == if i == n + 1 then ' ' else last[i - n - 2];
      }
    }
  }

  /** Blurring the name field turns "ahmed sani" into "Ahmed Sani". */
  lemma CapitalizeNameExample()
    ensures CapitalizeName("ahmed sani") == "Ahmed Sani"
  {
    CapitalizeTwoWords("ahmed", "sani");
    assert "ahmed" + " " + "sani" == "ahmed sani";
    assert Capitalized("ahmed") + " " + Capitalized("sani") == "Ahmed Sani";
  }
}
