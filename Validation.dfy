/** The checks the tag card applies before export and on upload
    (src/TagCard.jsx, `validateForm` and `handleImageUpload`). */
module Validation {
  import opened JsString
  import opened Opt

  /** The keys of the `formErrors` object. */
  datatype ErrorKey = ImageKey | NameKey | LgaKey | StateKey

  /** The `formErrors` object: a key maps to a message, or to `null` once the
      upload handler has cleared it. */
  type ErrorMap = map<ErrorKey, Option<string>>

  /** The component state that `validateForm` reads. `image` is the data
      URL the file reader produced, or `null`. */
  datatype Fields = Fields(image: Option<string>, name: string, lga: string, stateName: string)

  const AllKeys: set<ErrorKey> := {ImageKey, NameKey, LgaKey, StateKey}

  function Message(k: ErrorKey): string {
    match k
    case ImageKey => "Photo is required"
    case NameKey => "Name is required"
    case LgaKey => "LGA is required"
    case StateKey => "State is required"
  }

  /** `!image` is false: the photo is neither `null` nor the empty string. */
  predicate HasPhoto(image: Option<string>) {
    image.Some? && image.value != ""
  }

  /** `!image` in JavaScript: `null` and the empty string are falsy, any
      data URL the reader produced is truthy. */
  lemma PhotoPresenceExamples()
    ensures !HasPhoto(None) && !HasPhoto(Some(""))
    ensures HasPhoto(Some("data:image/png;base64,AA=="))
  {
  }

  /** The test `validateForm` applies to the field behind key `k`. */
  predicate Passes(f: Fields, k: ErrorKey) {
    match k
    case ImageKey => HasPhoto(f.image)
    case NameKey => !IsBlank(f.name)
    case LgaKey => !IsBlank(f.lga)
    case StateKey => !IsBlank(f.stateName)
  }

  /** The form is ready for export: a photo, and at least one character
      that is not whitespace in each of the name, LGA and state fields. */
  predicate IsComplete(f: Fields) {
    HasPhoto(f.image) && !AllSpace(f.name) && !AllSpace(f.lga) && !AllSpace(f.stateName)
  }

  /** A map that holds an entry for exactly the failing fields is empty
      exactly when the form is complete. */
  lemma ErrorsEmptyIffComplete(f: Fields, errs: ErrorMap)
    requires forall k :: k in errs <==> !Passes(f, k)
    ensures |errs| == 0 <==> IsComplete(f)
  {
    if IsComplete(f) {
      assert errs == map[];
    } else {
      assert ImageKey in errs || NameKey in errs || LgaKey in errs || StateKey in errs;
    }
  }

  /** The `errors` object `validateForm` stores: exactly one message for each
      failing field; it is empty exactly when the form is complete. */
  function RequiredErrors(f: Fields): (errs: ErrorMap)
    ensures forall k :: k in errs <==> !Passes(f, k)
    ensures forall k :: k in errs ==> errs[k] == Some(Message(k))
    ensures |errs| == 0 <==> IsComplete(f)
  {
    var errs := map k | k in AllKeys && !Passes(f, k) :: Some(Message(k));
    ErrorsEmptyIffComplete(f, errs);
    errs
  }

  /** Entry `k` of `errs` is its field's message exactly when the field
      fails. */
  predicate EntryFor(f: Fields, errs: ErrorMap, k: ErrorKey) {
    (k in errs <==> !Passes(f, k)) && (k in errs ==> errs[k] == Some(Message(k)))
  }

  /** `errs` holds exactly the messages of the fields that fail. */
  predicate ErrorsFor(f: Fields, errs: ErrorMap) {
    EntryFor(f, errs, ImageKey) && EntryFor(f, errs, NameKey)
    && EntryFor(f, errs, LgaKey) && EntryFor(f, errs, StateKey)
  }

  /** Such a map is the one
      `RequiredErrors` describes. */
  lemma ErrorsOfFailingFields(f: Fields, errs: ErrorMap)
    requires ErrorsFor(f, errs)
    ensures errs == RequiredErrors(f)
  {
    var r := RequiredErrors(f);
    assert errs.Keys == r.Keys by {
      forall k: ErrorKey ensures k in errs <==> k in r {
        assert k.ImageKey? || k.NameKey? || k.LgaKey? || k.StateKey?;
      }
    }
    forall k | k in errs ensures errs[k] == r[k] {
      assert k.ImageKey? || k.NameKey? || k.LgaKey? || k.StateKey?;
    }
  }

  /** The file picked in the upload control; `size` is in bytes. */
  datatype UploadFile = UploadFile(mimeType: string, size: nat)

  /** 5 MB, the largest accepted upload. */
  const MaxUploadBytes: nat := 5 * 1024 * 1024

  const NotAnImageAlert := "Please upload an image file"
  const TooLargeAlert := "Image size should be less than 5MB"

  /** What `handleImageUpload` decides before it starts reading the file. */
  datatype UploadVerdict = NoFile | NotAnImage | TooLarge | Accepted

  /** The two acceptance rules, the type test first: the MIME type must
      contain `image` and the size must not exceed 5 MB. */
  function CheckUpload(file: Option<UploadFile>): (v: UploadVerdict)
    ensures v == NoFile <==> file.None?
    ensures v == NotAnImage <==> file.Some? && !(exists i :: OccursAt(file.value.mimeType, "image", i))
    ensures v == TooLarge <==> file.Some? && (exists i :: OccursAt(file.value.mimeType, "image", i))
                                && file.value.size > 5242880
    ensures v == Accepted <==> file.Some? && (exists i :: OccursAt(file.value.mimeType, "image", i))
                                && file.value.size <= 5242880
  {
    match file
    case None => NoFile
    case Some(f) =>
      if !Matches(f.mimeType, "image") then NotAnImage
      else if f.size > MaxUploadBytes then TooLarge
      else Accepted
  }

  /** A file of exactly 5 MB is accepted; one byte more is refused; a
      non-image type is refused whatever its size. */
  lemma UploadLimitExamples()
    ensures CheckUpload(Some(UploadFile("image/png", 5242880))) == Accepted
    ensures CheckUpload(Some(UploadFile("image/png", 5242881))) == TooLarge
    ensures CheckUpload(Some(UploadFile("image/jpeg", 6 * 1024 * 1024))) == TooLarge
    ensures CheckUpload(Some(UploadFile("text/plain", 10))) == NotAnImage
  {
    assert OccursAt("image/png", "image", 0);
    assert OccursAt("image/jpeg", "image", 0);
    var t := "text/plain";
    forall i | 0 <= i <= |t| - 5 ensures !OccursAt(t, "image", i) {
      assert t[i..i + 5][0] == t[i] != 'i';
    }
  }

  /** The condition under which the validation summary is rendered, as
      written: `Object.keys(formErrors).length > 0`, which also counts keys
      whose value is `null`. */
  function SummaryShownAsWritten(errs: ErrorMap): (shown: bool)
    ensures shown <==> exists k :: k in errs
    ensures SummaryShown(errs) ==> shown
  {
    |errs| > 0
  }

  /** The evidently intended condition: some field has an error message. */
  predicate SummaryShown(errs: ErrorMap) {
    exists k :: k in errs && errs[k].Some?
  }

  /** Right after validation both conditions say the same thing: the
      summary appears exactly when the form is incomplete. */
  lemma SummaryAfterValidation(f: Fields)
    ensures SummaryShown(RequiredErrors(f)) <==> !IsComplete(f)
    ensures SummaryShownAsWritten(RequiredErrors(f)) <==> !IsComplete(f)
  {
    var errs := RequiredErrors(f);
    if !IsComplete(f) {
      var k :| k in errs;
      assert errs[k].Some?;
    }
  }

  /** As written, the summary survives a successful photo upload: export
      was refused only for the missing photo, the upload clears that entry
      to `null`, and the form is now complete, yet the key is still counted. */
  lemma SummaryAsWrittenAfterUpload()
    ensures var before := Fields(None, "Ahmed Sani", "Kano Municipal", "Kano");
            var after := Fields(Some("data:image/png;base64,AA=="), "Ahmed Sani", "Kano Municipal", "Kano");
            var errs := RequiredErrors(before)[ImageKey := None];
            IsComplete(after) && SummaryShownAsWritten(errs) && !SummaryShown(errs)
  {
    var before := Fields(None, "Ahmed Sani", "Kano Municipal", "Kano");
    assert !AllSpace(before.name) by { assert !IsSpace(before.name[0]); }
    assert !AllSpace(before.lga) by { assert !IsSpace(before.lga[0]); }
    assert !AllSpace(before.stateName) by { assert !IsSpace(before.stateName[0]); }
    assert RequiredErrors(before).Keys == {ImageKey};
  }

  /** With the corrected condition, clearing the photo's entry hides the
      summary exactly when no other field has a message. */
  lemma SummaryAfterPhotoCleared(errs: ErrorMap)
    ensures SummaryShown(errs[ImageKey := None]) <==>
            exists k :: k in errs && k != ImageKey && errs[k].Some?
  {
    var e := errs[ImageKey := None];
    if SummaryShown(e) {
      var k :| k in e && e[k].Some?;
      assert k != ImageKey && k in errs;
    }
    if exists k :: k in errs && k != ImageKey && errs[k].Some? {
      var k :| k in errs && k != ImageKey && errs[k].Some?;
      assert k in e && e[k] == errs[k];
    }
  }
}
