# NHF Cohort II tag card — a Dafny model

`src/TagCard.jsx` is a React form. A National Health Fellow uploads a photo
and types a name, an LGA (local government area) and a state. The card
previews them. Two buttons export the card as a PNG: one downloads it, the
other hands it to the browser's share sheet with a caption. This project
models the logic behind the form and proves its properties:

- the case normalisation applied when a field loses focus (`capitalizeName`,
  `capitalizeAll`);
- the form validation and the upload checks;
- the strings the card derives: the export file name, the name line, the
  location line and the share caption;
- the component's state and handlers, including the control flow of the two
  export buttons.

Modules, one per file:

- `Opt`: the `Option` type, standing for a value or JavaScript's `null`.
- `JsString`: the JavaScript built-ins the component relies on. These are
  the regular-expression classes `\w` and `\s`, `toUpperCase`/`toLowerCase`,
  `trim`, `replace(/\s+/g, '-')` and the unanchored `match('image.*')`.
- `Normalize`: `capitalizeName` and `capitalizeAll`.
- `Validation`: the error keys and messages, `validateForm`'s error map, the upload
  verdict and the validation-summary condition.
- `Derived`: the file-name slug, the name line, the location label and the
  caption.
- `Examples`: a two-word name capitalised and exported, and a location line, worked through.
- `Component`: `class TagCard`. Its fields are the component's `useState`
  hooks, and every handler is a method.

Conventions of the model:

- A handler runs to completion before the next event. Between events
  `Valid()` holds: the preview equals the stored photo, no export is in
  progress, every error entry is its field's message or `null`, and a
  visible success toast has a dismissal scheduled.
- The browser services are outcome parameters of the handlers:
  - `html2canvas` ends as `RasterOk` or `RasterFailed`.
  - The share sheet ends as `ShareSucceeded`, `ShareCancelled` or
    `ShareUnsupported`.
  - The file reader delivers a data URL, or `null` when reading fails.
- What a handler hands to the outside world is appended to the `effects`
  trace:
  - an alert;
  - a rasterisation, with the form it drew and the `isGenerating` flag at
    that moment;
  - a download, with its file name;
  - a share, with its file name, title and text.
- `\s` and `trim` use ECMAScript's full WhiteSpace and LineTerminator set
  (tab through carriage return, space, U+00A0, U+1680, U+2000–U+200A,
  U+2028, U+2029, U+202F, U+205F, U+3000, U+FEFF). `toUpperCase` and
  `toLowerCase` map ASCII letters only. `capitalizeName` is still modelled
  exactly: `\w` without the `u` flag matches only `[A-Za-z0-9_]`, so its
  callback only ever upper-cases ASCII characters.
- Rasterisation and share failures are only written to the console (lines
  123, 150 and 177). Nothing tells the user that an export failed. The
  model follows the code: such an export ends as `Failed` or `Cancelled`,
  and only the success toast is modelled.
- The caption's fixed opening (line 142, and on the card at line 655) holds
  the Mac Roman reading of UTF-8 bytes. Where an en dash was meant it holds
  U+201A U+00C4 U+00EC (`‚Äì`). Where the emoji U+1F64C and U+1F49A were meant
  it holds U+F8FF U+00FC U+00F4 U+00E5 U+F8FF U+00FC U+00ED U+00F6
  (`üôåüíö`). `Derived.CaptionIntro` holds these code points as written,
  so `Derived.Caption` is the text that `navigator.share` receives.

## Model

| member | source | states |
|---|---|---|
| Normalize.CapitalizeName | src/TagCard.jsx:27-29 | The length is kept. A character is upper-cased exactly when it is a `\w` character after a `\b` word boundary, that is at the start or after a non-word character. Every other character is left as it is. |
| Normalize.CapitalizeNameChangesOnlyWordStarts | src/TagCard.jsx:27-29 | Only a lower-case letter that starts a word can change. A word start is never lower case afterwards. Word and non-word characters keep their class, so the word structure is unchanged. |
| Normalize.CapitalizeNameIdempotent | src/TagCard.jsx:27-29 | Capitalising twice gives the same string as capitalising once. |
| Normalize.CapitalizeNameFixesTitleCase | src/TagCard.jsx:27-29 | A string whose words already start with a character that is not a lower-case letter is left unchanged. |
| Normalize.CapitalizeAll | src/TagCard.jsx:32-34 | The length is kept. No lower-case ASCII letter remains. Each character is the upper-case form of the input character at the same position. |
| Normalize.CapitalizeAllIdempotent | src/TagCard.jsx:32-34 | Upper-casing twice gives the same string as upper-casing once. |
| JsString.ToUpperCase | src/TagCard.jsx:33 | The length is kept, and no lower-case letter is left. Every character that is not a lower-case letter is kept. The result equals the input up to letter case. |
| JsString.ToLowerCase | src/TagCard.jsx:115 | The length is kept, and no upper-case letter is left. Every character that is not an upper-case letter is kept. The result equals the input up to letter case. |
| JsString.TrimStartSuffix | src/TagCard.jsx:93-95 | Trimming the start keeps a suffix, and what it removes is all whitespace. |
| JsString.TrimEndPrefix | src/TagCard.jsx:93-95 | Trimming the end keeps a prefix, and what it removes is all whitespace. |
| JsString.Trim | src/TagCard.jsx:93-95 | The result is no longer than the string and neither starts nor ends with whitespace. It is empty exactly when every character is whitespace. A string without whitespace is returned unchanged. |
| JsString.IsBlank | src/TagCard.jsx:93-95 | `!s.trim()` holds exactly when every character of `s` is whitespace, which includes the empty string. |
| JsString.Matches | src/TagCard.jsx:69 | The left-to-right scan for the unanchored `image.*` succeeds exactly when `image` occurs at some position of the MIME type. |
| JsString.ReplaceSpaceRuns | src/TagCard.jsx:115 | Replacing each whitespace run by one `-` never makes the string longer. |
| JsString.ReplaceSpaceRunsNoSpace | src/TagCard.jsx:115 | Replacing each whitespace run leaves no whitespace. |
| JsString.ReplaceSpaceRunsIdentity | src/TagCard.jsx:115 | A string without whitespace is unchanged. |
| JsString.MaximalRunBecomesOneHyphen | src/TagCard.jsx:115 | A maximal whitespace run becomes exactly one `-`. The text on either side is replaced on its own. |
| Validation.RequiredErrors | src/TagCard.jsx:91-99 | There is a key exactly for each failing field: the photo is missing, or the name, LGA or state is empty after trim. Each key maps to that field's message. The map is empty exactly when the photo is present and the three text fields each hold a character that is not whitespace. |
| Validation.ErrorsOfFailingFields | src/TagCard.jsx:92-95 | A map that holds exactly the failing fields' messages, as the four conditional assignments build it, is `RequiredErrors`. |
| Validation.PhotoPresenceExamples | src/TagCard.jsx:92 | `!image` treats `null` and the empty string as a missing photo, and a data URL as present. |
| Validation.ErrorsEmptyIffComplete | src/TagCard.jsx:98 | `Object.keys(errors).length === 0` holds exactly when the form is complete. |
| Validation.CheckUpload | src/TagCard.jsx:66-77 | No file is ignored. A type without `image` is refused before the size is looked at. A size above 5·1024·1024 bytes is refused. Anything else is accepted. Each verdict holds if and only if its condition does. |
| Validation.UploadLimitExamples | src/TagCard.jsx:74-77 | 5242880 bytes are accepted. 5242881 bytes and 6 MiB are refused as too large. `text/plain` is refused as not an image. |
| Validation.SummaryShownAsWritten | src/TagCard.jsx:752 | The summary condition as written holds exactly when `formErrors` has some key, whether its value is a message or `null`. Whenever some field has a message, it holds. |
| Validation.SummaryAfterValidation | src/TagCard.jsx:752 | Right after validation, both the written and the corrected summary condition hold exactly when the form is incomplete. |
| Validation.SummaryAsWrittenAfterUpload | src/TagCard.jsx:752 | The written condition shows the summary when the form was refused only for its photo and a photo was then uploaded. The form is complete and no field has a message. |
| Validation.SummaryAfterPhotoCleared | src/TagCard.jsx:80-84 | Under the corrected condition, clearing the photo entry hides the summary exactly when no other field has a message. |
| Derived.Slug | src/TagCard.jsx:115 | The slug holds no whitespace and no upper-case ASCII letter, and is never longer than the name. A name without whitespace is only lower-cased. |
| Derived.SlugAroundRun | src/TagCard.jsx:115 | Each maximal whitespace run of the name becomes exactly one `-` in the slug. |
| Derived.SlugIgnoresCase | src/TagCard.jsx:115 | Names that differ only in letter case have the same slug. |
| Derived.ExportFileName | src/TagCard.jsx:170 | The file name holds no whitespace and is at most 12 characters longer than the name. |
| Derived.ExportFileNameIgnoresBlur | src/TagCard.jsx:170 | The file name is the same whether or not the name field was capitalised on blur. |
| Derived.NameLine | src/TagCard.jsx:661 | An empty name shows `Your Name`. Any other name shows its `capitalizeName` form. |
| Derived.LocationLabel | src/TagCard.jsx:666-670 | The line is rendered exactly when the LGA or the state is non-empty. It reads `UPPER(lga) + ", " + UPPER(state)` exactly when both are non-empty, and `UPPER(lga) + UPPER(state)` otherwise. The length follows. |
| Derived.PreviewIgnoresBlur | src/TagCard.jsx:53-63 | After blurring the fields, the name line, the location line and the caption are unchanged. |
| Derived.Caption | src/TagCard.jsx:142 | The caption starts with the fixed opening and continues past it. |
| Derived.CaptionMatchesCard | src/TagCard.jsx:142 | With all three text fields filled, the caption ends with the card's name line, `" from "` and the card's location line. |
| Examples.ExportFileNameOfTwoWords | src/TagCard.jsx:170 | `first last`, with neither part holding whitespace, is exported as `nhf-tag-<first>-<last>.png` with both parts lower-cased. |
| Examples.LocationLabelExample | src/TagCard.jsx:666-670 | `kano municipal` and `kano` are shown as `KANO MUNICIPAL, KANO`. |
| Examples.CapitalizeTwoWords | src/TagCard.jsx:27-29 | Two words of word characters joined by one space: each gets its first character upper-cased, and nothing else changes. |
| Examples.CapitalizeNameExample | src/TagCard.jsx:27-29 | `ahmed sani` is capitalised as `Ahmed Sani`. |
| Component.TagCard.constructor | src/TagCard.jsx:6-14 | The state starts empty: no photo, empty strings, no errors, no toast, and nothing generating. |
| Component.TagCard.HandleNameChange | src/TagCard.jsx:37-40 | The typed value is stored unchanged. Nothing else changes. |
| Component.TagCard.HandleLgaChange | src/TagCard.jsx:42-45 | The typed value is stored unchanged. Nothing else changes. |
| Component.TagCard.HandleStateChange | src/TagCard.jsx:47-50 | The typed value is stored unchanged. Nothing else changes. |
| Component.TagCard.HandleNameBlur | src/TagCard.jsx:53-55 | The name becomes `capitalizeName` of itself, and a second blur keeps it. The name line and the file name do not change. Nothing else changes. |
| Component.TagCard.HandleLgaBlur | src/TagCard.jsx:57-59 | The LGA becomes `capitalizeAll` of itself, and a second blur keeps it. The location line does not change. Nothing else changes. |
| Component.TagCard.HandleStateBlur | src/TagCard.jsx:61-63 | The state becomes `capitalizeAll` of itself, and a second blur keeps it. The location line does not change. Nothing else changes. |
| Component.TagCard.OnLoadEnd | src/TagCard.jsx:80-84 | `image` and `imagePreview` both become the reader's result. Only the `image` error entry becomes `null`, and every other entry is kept. |
| Component.TagCard.HandleImageUpload | src/TagCard.jsx:66-88 | The verdict is `CheckUpload`. A refused file raises its alert and changes no field. An accepted file acts as `onloadend` does. |
| Component.TagCard.ValidateForm | src/TagCard.jsx:91-99 | `formErrors` becomes `RequiredErrors` of the form. The result is true exactly when the form is complete, which is exactly when the summary is hidden. Nothing else changes. |
| Component.TagCard.GenerateImageFile | src/TagCard.jsx:102-127 | The card is rasterised once, with `isGenerating` raised. A file named `ExportFileName(name)` comes back exactly when rasterising succeeded. `isGenerating` is lowered on both exits. |
| Component.TagCard.RasteriseAndDownload | src/TagCard.jsx:161-180 | This is the `try` block of `downloadImage`. It rasterises with `isGenerating` raised. On success it downloads `ExportFileName(name)` and shows the toast, scheduling one dismissal. `finally` lowers `isGenerating`. |
| Component.TagCard.DownloadImage | src/TagCard.jsx:155-181 | A failed validation returns `Blocked` before anything is rasterised. That leaves the trace, the toast and `isGenerating` as they were. Otherwise the rasterisation decides `Delivered` or `Failed`. The toast is shown exactly on `Delivered`, and `isGenerating` ends lowered either way. |
| Component.TagCard.OfferShare | src/TagCard.jsx:138-145 | The file is handed to the share sheet with the fixed title and the caption. The toast is shown and a dismissal scheduled exactly when the share completes. |
| Component.TagCard.ShareToWhatsApp | src/TagCard.jsx:130-152 | A failed validation returns `Blocked` with nothing rasterised. Otherwise, a failed rasterisation ends `Failed`. A browser that can share gets `ExportFileName(name)`, the title and `Caption(name, lga, state)`. One that cannot falls back to `downloadImage`, which rasterises a second time. The toast is shown exactly on `Delivered`, and `isGenerating` always ends lowered. |
| Component.TagCard.FireDismissTimer | src/TagCard.jsx:145 | The 3000 ms timer hides the toast and uses up one scheduled dismissal. |
| Component.TagCard.ShowsValidationSummary | src/TagCard.jsx:752 | The rendered summary, by the condition as written: shown exactly when `formErrors` has some key. Whenever some field has a message, it is shown. |
| Component.SummaryOutlivesUpload | src/TagCard.jsx:752 | Fill in the name, LGA and state without a photo. Press the download button, then upload an accepted photo. The card is then complete and no field has a message, yet the summary is shown. |

## Left out

- The resize listener and the `isMobile` layout switch (lines 15-24). They only choose styles.
- Styles, JSX markup and the hover handlers. They are presentation and have no behavioural contract.
- `html2canvas`, `canvas.toBlob`/`toDataURL`, `File` and the synthetic link click are foreign browser and library calls. They appear only as the outcome of a rasterisation and the name of the file it yields. Image data is not modelled.
- Component.TagCard.GenerateImageFile: `toBlob` could throw synchronously, for instance on a tainted canvas. Its promise is returned without `await`, so the `catch` that lowers `isGenerating` would not run. The model does not include that outcome, because the card draws only a same-origin background and a data-URL photo.
- A `null` blob handed to the `toBlob` callback is not modelled.
- `navigator.share`/`canShare` capability probing is one `ShareOutcome` value. The model does not distinguish a cancelled share from a failed one, because the source logs both the same way.
- The `FileReader` is asynchronous. Only the state effect of `onloadend` is modelled, with the result passed in.
- `URL.revokeObjectURL` (lines 184-190) is not modelled. The effect's cleanup runs whenever `imagePreview` changes and on unmount. It releases a browser resource, and for a data URL it does nothing.
- The 3000 ms delay is not modelled. Only the number of pending dismissals is counted, and their firing is a separate event.
- Awaits do not interleave with other events. Between events `isGenerating` is false, so the buttons' `disabled={isGenerating}` (lines 694, 726) never matters in the model and is not a precondition.
- Console logging is not modelled.
- Normalize.CapitalizeAll: only ASCII `a`–`z` are upper-cased. JavaScript's `toUpperCase` also maps other letters, some of them to longer strings (`ß` to `SS`). With those, the length would not be kept.
- Derived.Slug: lower-casing covers ASCII letters only, and so does the absence of upper case it proves. JavaScript's `toLowerCase` also maps other letters.
- Derived.ExportFileName: the contract states no whitespace and a length bound. The exact shape, prefix plus slug plus `.png`, is shown for two-word names by Examples.ExportFileNameOfTwoWords.

## Findings

| source | as written | input that shows it | evidently intended | confidence | as-written member | corrected member |
|---|---|---|---|---|---|---|
| src/TagCard.jsx:752 | The summary "Please fill in all required fields" is rendered when `Object.keys(formErrors).length > 0`. The upload handler clears the photo error by writing `image: null` (line 83), which keeps the key. | Fill in name `Ahmed Sani`, LGA `Kano Municipal` and state `Kano` with no photo, then press Download: the only error is the photo's. Upload a photo: the form is complete and no field has a message, yet the summary stays. | The summary is shown exactly when some field has a message. | not executed | Validation.SummaryAsWrittenAfterUpload | Validation.SummaryAfterValidation |

The component keeps the condition as written. `Component.TagCard.ShowsValidationSummary` is `Validation.SummaryShownAsWritten` of `formErrors`. `Component.SummaryOutlivesUpload` runs the handlers through the input above and ends with the summary shown on a complete form. The corrected condition is `Validation.SummaryShown`. `Validation.SummaryAfterValidation` shows that both conditions agree right after validation. `Validation.SummaryAfterPhotoCleared` shows that under the corrected condition an upload hides the summary exactly when no other field has a message.
