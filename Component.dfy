/** The state of the `TagCard` component (src/TagCard.jsx) and its event
    handlers. Each `useState` hook is a field; a handler is a method that
    updates the fields the way its setter calls do. The browser services the
    handlers call (rasterising the card, the native share sheet, the file
    reader) are outcome parameters, and what the handlers hand to the
    outside world (alerts, rasterisations, downloads, shares) is appended to
    the `effects` trace. */
module Component {
  import opened JsString
  import opened Normalize
  import opened Opt
  import opened Validation
  import opened Derived

  /** Something a handler does outside the component's state. */
  datatype Effect =
    | Alert(message: string)
      /** `html2canvas` was run on the card while it showed `form`;
          `busy` is the value of `isGenerating` at that moment. */
    | Rasterised(form: Fields, busy: bool)
      /** A synthetic link click that downloads the card as `fileName`. */
    | Download(fileName: string)
      /** A call of `navigator.share` with one file and the given title
          and text. */
    | Share(fileName: string, title: string, text: string)

  /** How rasterising the card ends: `html2canvas` resolves, or it rejects. */
  datatype RasterOutcome = RasterOk | RasterFailed

  /** What the browser's share support does with the generated file: the
      share sheet completes, the share is cancelled or rejected, or the
      browser cannot share files (`navigator.share`/`canShare` missing or
      refusing the file). */
  datatype ShareOutcome = ShareSucceeded | ShareCancelled | ShareUnsupported

  /** How an export button handler ends. */
  datatype ExportOutcome =
    | Blocked    // validation failed; nothing was rasterised
    | Failed     // rasterising failed; the error was logged
    | Cancelled  // the share sheet was dismissed or failed
    | Delivered  // the card was downloaded or shared

  class TagCard {
    var image: Option<string>
    var name: string
    var lga: string
    var stateName: string
    var imagePreview: Option<string>
    var isGenerating: bool
    var showSuccess: bool
    var formErrors: ErrorMap
    /** Number of `setTimeout` callbacks scheduled to hide the success
        toast that have not fired yet. */
    var pendingDismissals: nat
    var effects: seq<Effect>

    /** The values `validateForm` reads. */
    function Snapshot(): Fields
      reads this
    {
      Fields(image, name, lga, stateName)
    }

    /** What holds between two events:
        - the preview is always the stored photo;
        - no export is in progress (the handlers run to completion);
        - an error entry is its field's message, or `null`;
        - a visible success toast has a dismissal scheduled. */
    predicate Valid()
      reads this
    {
      && image == imagePreview
      && !isGenerating
      && (forall k :: k in formErrors ==> formErrors[k] == None || formErrors[k] == Some(Message(k)))
      && (showSuccess ==> pendingDismissals > 0)
    }

    /** The initial state of the hooks. */
    constructor ()
      ensures Valid()
      ensures Snapshot() == Fields(None, "", "", "") && imagePreview == None
      ensures !showSuccess && formErrors == map[] && pendingDismissals == 0 && effects == []
    {
      image := None;
      name := "";
      lga := "";
      stateName := "";
      imagePreview := None;
      isGenerating := false;
      showSuccess := false;
      formErrors := map[];
      pendingDismissals := 0;
      effects := [];
    }

    /** `handleNameChange`: the typed value is stored as it is. */
    method HandleNameChange(input: string)
      requires Valid()
      modifies this
      ensures Valid()
      ensures name == input
      ensures lga == old(lga) && stateName == old(stateName) && image == old(image)
      ensures imagePreview == old(imagePreview) && formErrors == old(formErrors)
      ensures showSuccess == old(showSuccess) && pendingDismissals == old(pendingDismissals)
      ensures effects == old(effects)
    {
      name := input;
    }

    /** `handleLgaChange`: the typed value is stored as it is. */
    method HandleLgaChange(input: string)
      requires Valid()
      modifies this
      ensures Valid()
      ensures lga == input
      ensures name == old(name) && stateName == old(stateName) && image == old(image)
      ensures imagePreview == old(imagePreview) && formErrors == old(formErrors)
      ensures showSuccess == old(showSuccess) && pendingDismissals == old(pendingDismissals)
      ensures effects == old(effects)
    {
      lga := input;
    }

    /** `handleStateChange`: the typed value is stored as it is. */
    method HandleStateChange(input: string)
      requires Valid()
      modifies this
      ensures Valid()
      ensures stateName == input
      ensures name == old(name) && lga == old(lga) && image == old(image)
      ensures imagePreview == old(imagePreview) && formErrors == old(formErrors)
      ensures showSuccess == old(showSuccess) && pendingDismissals == old(pendingDismissals)
      ensures effects == old(effects)
    {
      stateName := input;
    }

    /** `handleNameBlur`: the name is replaced by its capitalised form. A
        second blur stores the same value again, and nothing the card or
        the export shows changes. */
    method HandleNameBlur()
      requires Valid()
      modifies this
      ensures Valid()
      ensures name == CapitalizeName(old(name))
      ensures CapitalizeName(name) == name
      ensures NameLine(name) == NameLine(old(name))
      ensures ExportFileName(name) == ExportFileName(old(name))
      ensures lga == old(lga) && stateName == old(stateName) && image == old(image)
      ensures imagePreview == old(imagePreview) && formErrors == old(formErrors)
      ensures showSuccess == old(showSuccess) && pendingDismissals == old(pendingDismissals)
      ensures effects == old(effects)
    {
      CapitalizeNameIdempotent(name);
      ExportFileNameIgnoresBlur(name);
      PreviewIgnoresBlur(name, lga, stateName);
      name := CapitalizeName(name);
    }

    /** `handleLgaBlur`: the LGA is replaced by its upper-case form, which a
        second blur leaves alone. */
    method HandleLgaBlur()
      requires Valid()
      modifies this
      ensures Valid()
      ensures lga == CapitalizeAll(old(lga))
      ensures CapitalizeAll(lga) == lga
      ensures LocationLabel(lga, stateName) == LocationLabel(old(lga), stateName)
      ensures name == old(name) && stateName == old(stateName) && image == old(image)
      ensures imagePreview == old(imagePreview) && formErrors == old(formErrors)
      ensures showSuccess == old(showSuccess) && pendingDismissals == old(pendingDismissals)
      ensures effects == old(effects)
    {
      CapitalizeAllIdempotent(lga);
      CapitalizeAllIdempotent(stateName);
      lga := CapitalizeAll(lga);
    }

    /** `handleStateBlur`: the state is replaced by its upper-case form,
        which a second blur leaves alone. */
    method HandleStateBlur()
      requires Valid()
      modifies this
      ensures Valid()
      ensures stateName == CapitalizeAll(old(stateName))
      ensures CapitalizeAll(stateName) == stateName
      ensures LocationLabel(lga, stateName) == LocationLabel(lga, old(stateName))
      ensures name == old(name) && lga == old(lga) && image == old(image)
      ensures imagePreview == old(imagePreview) && formErrors == old(formErrors)
      ensures showSuccess == old(showSuccess) && pendingDismissals == old(pendingDismissals)
      ensures effects == old(effects)
    {
      CapitalizeAllIdempotent(lga);
      CapitalizeAllIdempotent(stateName);
      stateName := CapitalizeAll(stateName);
    }

    /** The reader's `onloadend` callback. It also runs when reading fails,
        and then stores `reader.result`, which is `null`. */
    method OnLoadEnd(result: Option<string>)
      requires Valid()
      modifies this
      ensures Valid()
      ensures image == result && imagePreview == result
      ensures formErrors == old(formErrors)[ImageKey := None]
      ensures name == old(name) && lga == old(lga) && stateName == old(stateName)
      ensures showSuccess == old(showSuccess) && pendingDismissals == old(pendingDismissals)
      ensures effects == old(effects)
    {
      imagePreview := result;
      image := result;
      formErrors := formErrors[ImageKey := None];
    }

    /** `handleImageUpload` for the first selected file (`None` when the
        picker was closed without one). A refused file raises an alert and
        changes no field; an accepted one is read, and `readResult` is what
        the reader delivers. */
    method HandleImageUpload(file: Option<UploadFile>, readResult: Option<string>) returns (verdict: UploadVerdict)
      requires Valid()
      modifies this
      ensures Valid()
      ensures verdict == CheckUpload(file)
      ensures verdict == NoFile ==> effects == old(effects)
      ensures verdict == NotAnImage ==> effects == old(effects) + [Alert(NotAnImageAlert)]
      ensures verdict == TooLarge ==> effects == old(effects) + [Alert(TooLargeAlert)]
      ensures verdict == Accepted ==> effects == old(effects)
      ensures verdict != Accepted ==>
                image == old(image) && imagePreview == old(imagePreview) && formErrors == old(formErrors)
      ensures verdict == Accepted ==>
                image == readResult && imagePreview == readResult
                && formErrors == old(formErrors)[ImageKey := None]
      ensures name == old(name) && lga == old(lga) && stateName == old(stateName)
      ensures showSuccess == old(showSuccess) && pendingDismissals == old(pendingDismissals)
    {
      verdict := CheckUpload(file);
      match verdict
      case NoFile =>
      case NotAnImage =>
        effects := effects + [Alert(NotAnImageAlert)];
      case TooLarge =>
        effects := effects + [Alert(TooLargeAlert)];
      case Accepted =>
        OnLoadEnd(readResult);
    }

    /** `validateForm`: collects one message per failing field, stores the
        collection as `formErrors`, and reports whether it is empty. */
    method ValidateForm() returns (valid: bool)
      requires Valid()
      modifies this
      ensures Valid()
      ensures formErrors == RequiredErrors(old(Snapshot()))
      ensures valid <==> IsComplete(old(Snapshot()))
      ensures valid <==> !ShowsValidationSummary()
      ensures Snapshot() == old(Snapshot()) && imagePreview == old(imagePreview)
      ensures showSuccess == old(showSuccess) && pendingDismissals == old(pendingDismissals)
      ensures effects == old(effects)
    {
      ghost var f := Snapshot();
      var errors: ErrorMap := map[];
      if !HasPhoto(image) {
        errors := errors[ImageKey := Some(Message(ImageKey))];
      }
      assert EntryFor(f, errors, ImageKey);
      if IsBlank(name) {
        errors := errors[NameKey := Some(Message(NameKey))];
      }
      assert EntryFor(f, errors, NameKey);
      if IsBlank(lga) {
        errors := errors[LgaKey := Some(Message(LgaKey))];
      }
      assert EntryFor(f, errors, LgaKey);
      if IsBlank(stateName) {
        errors := errors[StateKey := Some(Message(StateKey))];
      }
      assert EntryFor(f, errors, StateKey);
      ErrorsOfFailingFields(f, errors);
      formErrors := errors;
      SummaryAfterValidation(f);
      valid := |errors| == 0;
    }

    /** `generateImageFile`: raises `isGenerating`, rasterises the card and,
        when that succeeds, yields the PNG file under the export name;
        `isGenerating` is lowered on both exits. */
    method GenerateImageFile(raster: RasterOutcome) returns (file: Option<string>)
      requires Valid()
      modifies this
      ensures Valid()
      ensures effects == old(effects) + [Rasterised(old(Snapshot()), true)]
      ensures file.Some? <==> raster == RasterOk
      ensures file.Some? ==> file.value == ExportFileName(name)
      ensures Snapshot() == old(Snapshot()) && imagePreview == old(imagePreview)
      ensures formErrors == old(formErrors)
      ensures showSuccess == old(showSuccess) && pendingDismissals == old(pendingDismissals)
    {
      var fileName := ExportFileName(name);
      var form := Snapshot();
      isGenerating := true;
      var shot := Rasterised(form, isGenerating);
      effects := effects + [shot];
      if raster == RasterOk {
        file := Some(fileName);
      } else {
        file := None;
      }
      isGenerating := false;
    }

    /** The `try` block of `downloadImage`, entered once validation has
        passed: the card is rasterised with `isGenerating` raised and, on
        success, downloaded; `finally` lowers `isGenerating`. */
    method RasteriseAndDownload(raster: RasterOutcome) returns (outcome: ExportOutcome)
      requires Valid()
      modifies this
      ensures Valid()
      ensures outcome == (if raster == RasterOk then Delivered else Failed)
      ensures effects == old(effects) + [Rasterised(old(Snapshot()), true)] +
                (if raster == RasterOk then [Download(ExportFileName(old(name)))] else [])
      ensures showSuccess == (old(showSuccess) || raster == RasterOk)
      ensures pendingDismissals == old(pendingDismissals) + (if raster == RasterOk then 1 else 0)
      ensures Snapshot() == old(Snapshot()) && imagePreview == old(imagePreview)
      ensures formErrors == old(formErrors)
    {
      var form := Snapshot();
      var fileName := ExportFileName(name);
      isGenerating := true;
      var shot := Rasterised(form, isGenerating);
      effects := effects + [shot];
      if raster == RasterOk {
        effects := effects + [Download(fileName)];
        showSuccess := true;
        pendingDismissals := pendingDismissals + 1;
        outcome := Delivered;
      } else {
        outcome := Failed;
      }
      isGenerating := false;
    }

    /** `downloadImage`: validation gates the export; once it passes,
        `isGenerating` is raised, the card is rasterised and, on success,
        downloaded under the export name with the success toast shown.
        Whatever happens, `isGenerating` ends lowered. */
    method DownloadImage(raster: RasterOutcome) returns (outcome: ExportOutcome)
      requires Valid()
      modifies this
      ensures Valid()
      ensures formErrors == RequiredErrors(old(Snapshot()))
      ensures outcome == Blocked <==> !IsComplete(old(Snapshot()))
      ensures outcome != Blocked ==> outcome == (if raster == RasterOk then Delivered else Failed)
      ensures outcome == Blocked ==> effects == old(effects)
      ensures outcome != Blocked ==>
                effects == old(effects) + [Rasterised(old(Snapshot()), true)] +
                  (if raster == RasterOk then [Download(ExportFileName(old(name)))] else [])
      ensures showSuccess == (old(showSuccess) || outcome == Delivered)
      ensures pendingDismissals == old(pendingDismissals) + (if outcome == Delivered then 1 else 0)
      ensures Snapshot() == old(Snapshot()) && imagePreview == old(imagePreview)
    {
      var valid := ValidateForm();
      if !valid {
        return Blocked;
      }
      outcome := RasteriseAndDownload(raster);
    }

    /** The `navigator.share` call of `shareToWhatsApp` on a browser that
        can share the file: only a completed share shows the success
        toast. */
    method OfferShare(file: string, text: string, share: ShareOutcome) returns (outcome: ExportOutcome)
      requires Valid() && share != ShareUnsupported
      modifies this
      ensures Valid()
      ensures effects == old(effects) + [Share(file, ShareTitle, text)]
      ensures outcome == (if share == ShareSucceeded then Delivered else Cancelled)
      ensures showSuccess == (old(showSuccess) || share == ShareSucceeded)
      ensures pendingDismissals == old(pendingDismissals) + (if share == ShareSucceeded then 1 else 0)
      ensures Snapshot() == old(Snapshot()) && imagePreview == old(imagePreview)
      ensures formErrors == old(formErrors)
    {
      effects := effects + [Share(file, ShareTitle, text)];
      if share == ShareSucceeded {
        showSuccess := true;
        pendingDismissals := pendingDismissals + 1;
        outcome := Delivered;
      } else {
        outcome := Cancelled;
      }
    }

    /** `shareToWhatsApp`: validation gates the export; the file comes from
        `generateImageFile`; a browser that can share it gets it with the
        fixed title and the caption, one that cannot falls back to
        `downloadImage`, which validates and rasterises once more
        (`fallbackRaster`). Only a completed share or download shows the
        success toast, and `isGenerating` always ends lowered. */
    method ShareToWhatsApp(raster: RasterOutcome, share: ShareOutcome, fallbackRaster: RasterOutcome)
      returns (outcome: ExportOutcome)
      requires Valid()
      modifies this
      ensures Valid()
      ensures formErrors == RequiredErrors(old(Snapshot()))
      ensures outcome == Blocked <==> !IsComplete(old(Snapshot()))
      ensures outcome == Blocked ==> effects == old(effects)
      ensures outcome != Blocked && raster == RasterFailed ==>
                outcome == Failed && effects == old(effects) + [Rasterised(old(Snapshot()), true)]
      ensures outcome != Blocked && raster == RasterOk && share != ShareUnsupported ==>
                outcome == (if share == ShareSucceeded then Delivered else Cancelled)
                && effects == old(effects) + [Rasterised(old(Snapshot()), true),
                     Share(ExportFileName(old(name)), ShareTitle, Caption(old(name), old(lga), old(stateName)))]
      ensures outcome != Blocked && raster == RasterOk && share == ShareUnsupported ==>
                outcome == (if fallbackRaster == RasterOk then Delivered else Failed)
                && effects == old(effects) + [Rasterised(old(Snapshot()), true)] + [Rasterised(old(Snapshot()), true)] +
                     (if fallbackRaster == RasterOk then [Download(ExportFileName(old(name)))] else [])
      ensures showSuccess == (old(showSuccess) || outcome == Delivered)
      ensures pendingDismissals == old(pendingDismissals) + (if outcome == Delivered then 1 else 0)
      ensures Snapshot() == old(Snapshot()) && imagePreview == old(imagePreview)
    {
      var valid := ValidateForm();
      if !valid {
        return Blocked;
      }
      var text := Caption(name, lga, stateName);
      var file := GenerateImageFile(raster);
      if file.None? {
        return Failed;
      }
      if share == ShareUnsupported {
        outcome := DownloadImage(fallbackRaster);
      } else {
        outcome := OfferShare(file.value, text, share);
      }
    }

    /** The 3000 ms timer scheduled with the success toast fires: the toast
        is hidden, even if a later export showed it again. */
    method FireDismissTimer()
      requires Valid() && pendingDismissals > 0
      modifies this
      ensures Valid()
      ensures !showSuccess && pendingDismissals == old(pendingDismissals) - 1
      ensures Snapshot() == old(Snapshot()) && imagePreview == old(imagePreview)
      ensures formErrors == old(formErrors) && effects == old(effects)
    {
      showSuccess := false;
      pendingDismissals := pendingDismissals - 1;
    }

    /** Whether the "Please fill in all required fields" summary is shown,
        by the condition as written: `formErrors` has at least one key,
        whether its value is a message or `null`. */
    function ShowsValidationSummary(): (shown: bool)
      reads this
      ensures shown <==> exists k :: k in formErrors
      ensures SummaryShown(formErrors) ==> shown
    {
      SummaryShownAsWritten(formErrors)
    }
  }

  /** The summary outlives the upload that completes the form: a form
      filled in without a photo is refused by the download button, then an
      accepted photo is uploaded. The form is now complete and no field has
      a message, yet the summary is still shown. */
  method SummaryOutlivesUpload(file: UploadFile, photo: string) returns (card: TagCard)
    requires CheckUpload(Some(file)) == Accepted && photo != ""
    ensures card.Valid() && IsComplete(card.Snapshot())
    ensures card.ShowsValidationSummary() && !SummaryShown(card.formErrors)
  {
    card := new TagCard();
    card.HandleNameChange("Ahmed Sani");
    card.HandleLgaChange("Kano Municipal");
    card.HandleStateChange("Kano");
    var f := card.Snapshot();
    assert !AllSpace(f.name) by { assert !IsSpace(f.name[0]); }
    assert !AllSpace(f.lga) by { assert !IsSpace(f.lga[0]); }
    assert !AllSpace(f.stateName) by { assert !IsSpace(f.stateName[0]); }
    assert RequiredErrors(f).Keys == {ImageKey};
    var outcome := card.DownloadImage(RasterOk);
    var verdict := card.HandleImageUpload(Some(file), Some(photo));
  }
}
