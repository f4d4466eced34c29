/** The project editor (src/components/EditProject.jsx): the image-file
    check, the bookkeeping of existing and newly chosen images, the ordered
    upload strategies with their fallback, and the update request built by
    the confirmed submit. The browser, the upload service and the backend
    are parameters. */
module EditProject {
  import opened Results
  import opened Text
  import opened Lists
  import opened Files

  /** The upload size limit: 10 MiB. */
  const MaxSize: nat := 10 * 1024 * 1024
  const Mebibyte: nat := 1024 * 1024
  const AllowedTypes := ["image/jpeg", "image/jpg", "image/png", "image/gif", "image/webp"]

  const UploadFailedPrefix := "Image upload failed: "
  const UnreachableMessage := "Unable to connect to image upload service. Please check your internet connection."
  const MainFailedPrefix := "Main image upload failed: "
  const AdditionalFailedPrefix := "Additional images upload failed: "
  const UpdateFailed := "Failed to update project"

  // ---------------------------------------------------------------------
  // The file check
  // ---------------------------------------------------------------------

  /** The size in hundredths of a mebibyte, rounded to the nearest, a tie
      going up, which is what `(size / (1024 * 1024)).toFixed(2)` shows:
      the quotient is exact in binary, and `toFixed` picks the nearer
      multiple of 0.01, the larger one on a tie. */
  function Hundredths(size: nat): (h: nat)
    ensures size * 100 - Mebibyte / 2 < h * Mebibyte <= size * 100 + Mebibyte / 2
  {
    (size * 100 + Mebibyte / 2) / Mebibyte
  }

  /** `(size / (1024 * 1024)).toFixed(2)`: whole mebibytes, a point and
      exactly two decimals. */
  function MegabyteText(size: nat): (r: string)
    ensures |r| >= 4 && r[|r| - 3] == '.'
    ensures AllDigits(r[..|r| - 3]) && AllDigits(r[|r| - 2..])
    ensures ParseDecimal(r[..|r| - 3]) * 100 + ParseDecimal(r[|r| - 2..]) == Hundredths(size)
  {
    var h := Hundredths(size);
    var whole := NatToString(h / 100);
    var fraction := [DigitChar(h % 100 / 10), DigitChar(h % 10)];
    var r := whole + "." + fraction;
    assert r[..|r| - 3] == whole;
    assert r[|r| - 2..] == fraction;
    ParseNatToString(h / 100);
    assert fraction[..1] == [DigitChar(h % 100 / 10)];
    assert ParseDecimal(fraction[..1]) == h % 100 / 10;
    assert ParseDecimal(fraction) == 10 * (h % 100 / 10) + h % 10;
    r
  }

  function TypeMessage(mime: string): string {
    "File type " + mime + " is not supported. Please use JPEG, PNG, GIF, or WebP."
  }

  function SizeMessage(size: nat): string {
    "File size " + MegabyteText(size) + "MB exceeds the 10MB limit."
  }

  /** `validateImageFile`: the message of the first rule the file breaks,
      the type being checked before the size. */
  function ValidateImageFile(file: File): (r: Option<string>)
    ensures r.None? <==> file.mime in AllowedTypes && file.size <= MaxSize
    ensures file.mime !in AllowedTypes ==> r == Some(TypeMessage(file.mime))
    ensures file.mime in AllowedTypes && file.size > MaxSize ==> r == Some(SizeMessage(file.size))
  {
    if file.mime !in AllowedTypes then Some(TypeMessage(file.mime))
    else if file.size > MaxSize then Some(SizeMessage(file.size))
    else None
  }

  /** A file just over the limit is reported as at least "10.00" MB: the
      rounded figure never drops below the limit it is said to exceed. */
  lemma OversizeShowsAtLeastTenMegabytes(size: nat)
    requires size > MaxSize
    ensures Hundredths(size) >= 1000
  {
    assert size * 100 >= MaxSize * 100 + 100;
  }

  /** The first message a batch raises, checking files in order: `None`
      when every file passes. */
  function FirstInvalid(files: seq<File>): (r: Option<string>)
    ensures r.None? <==> forall k :: 0 <= k < |files| ==> ValidateImageFile(files[k]).None?
    ensures r.Some? ==> exists k :: 0 <= k < |files| && FirstFailureAt(files, k) && ValidateImageFile(files[k]) == r
    decreases |files|
  {
    if |files| == 0 then None
    else if ValidateImageFile(files[0]).Some? then
      assert FirstFailureAt(files, 0);
      ValidateImageFile(files[0])
    else
      var rest := FirstInvalid(files[1..]);
      if rest.Some? then
        var k :| 0 <= k < |files| - 1 && FirstFailureAt(files[1..], k) && ValidateImageFile(files[1..][k]) == rest;
        assert FirstFailureAt(files, k + 1);
        rest
      else
        assert forall k :: 1 <= k < |files| ==> files[k] == files[1..][k - 1];
        rest
  }

  /** File `k` is the first of `files` that fails the check. */
  predicate FirstFailureAt(files: seq<File>, k: int) {
    0 <= k < |files| && ValidateImageFile(files[k]).Some?
    && forall j :: 0 <= j < k ==> ValidateImageFile(files[j]).None?
  }

  // ---------------------------------------------------------------------
  // The editor's state and its image bookkeeping
  // ---------------------------------------------------------------------

  /** The project as the form holds it. */
  datatype Form = Form(
    id: string, name: string, description: string, status: string,
    mainImage: string, allImages: seq<string>,
    area: int, flow: int, bedrooms: int, bathrooms: int,
    customerFeedback: string, createdAt: string, updatedAt: string, createdBy: string)

  /** A newly chosen image and the object URL that previews it. */
  datatype Preview = Preview(file: File, url: string)

  /** The editor: the form, the new main file, the new additional files and
      their previews, the stored URLs marked for removal, the error shown
      and the two popups. */
  datatype Editor = Editor(
    form: Form,
    mainImageFile: Option<File>,
    additionalFiles: seq<File>,
    previews: seq<Preview>,
    imagesToRemove: seq<string>,
    error: Option<string>,
    showConfirmPopup: bool,
    showSuccessPopup: bool)

  /** The new files and their previews run in parallel: entry `k` of the
      previews shows file `k`. */
  predicate Aligned(e: Editor) {
    |e.previews| == |e.additionalFiles|
    && forall k :: 0 <= k < |e.previews| ==> e.previews[k].file == e.additionalFiles[k]
  }

  /** `removeExistingImage(url, i)`: stored image `i` leaves the form's list,
      the others keeping their order, and `url` is queued for removal. */
  function RemoveExistingImage(e: Editor, url: string, i: int): (r: Editor)
    ensures 0 <= i < |e.form.allImages| ==>
      r.form.allImages == e.form.allImages[..i] + e.form.allImages[i + 1..]
    ensures !(0 <= i < |e.form.allImages|) ==> r.form.allImages == e.form.allImages
    ensures r.imagesToRemove == e.imagesToRemove + [url]
    ensures r == e.(form := r.form, imagesToRemove := r.imagesToRemove)
    ensures r.form == e.form.(allImages := r.form.allImages)
  {
    e.(form := e.form.(allImages := RemoveAt(e.form.allImages, i)),
       imagesToRemove := e.imagesToRemove + [url])
  }

  /** `removeNewImage(i)`: entry `i` leaves both the previews and the new
      files, so the two stay aligned. */
  function RemoveNewImage(e: Editor, i: int): (r: Editor)
    ensures r.previews == RemoveAt(e.previews, i) && r.additionalFiles == RemoveAt(e.additionalFiles, i)
    ensures r == e.(previews := r.previews, additionalFiles := r.additionalFiles)
  {
    e.(previews := RemoveAt(e.previews, i), additionalFiles := RemoveAt(e.additionalFiles, i))
  }

  /** Removing a new image keeps the previews aligned with the files: the
      same index leaves both lists, and the entries after it move down
      together. */
  lemma RemoveNewImageKeepsAligned(e: Editor, i: int)
    requires Aligned(e)
    ensures Aligned(RemoveNewImage(e, i))
  {
    var r := RemoveNewImage(e, i);
    if 0 <= i < |e.previews| {
      forall k | 0 <= k < |r.previews| ensures r.previews[k].file == r.additionalFiles[k] {
        if k < i {
          assert r.previews[k] == e.previews[k] && r.additionalFiles[k] == e.additionalFiles[k];
        } else {
          assert r.previews[k] == e.previews[k + 1] && r.additionalFiles[k] == e.additionalFiles[k + 1];
        }
      }
    }
  }

  /** `removeMainImage`: neither a new main file nor a stored main URL. */
  function RemoveMainImage(e: Editor): (r: Editor)
    ensures r.mainImageFile.None? && r.form.mainImage == ""
    ensures r == e.(mainImageFile := None, form := e.form.(mainImage := ""))
  {
    e.(mainImageFile := None, form := e.form.(mainImage := ""))
  }

  /** Once the main image is removed the update carries no main image:
      any update the next submit sends has an empty `mainImage`, and one is
      sent whenever the remaining uploads succeed and the save goes through. */
  lemma RemovedMainImageIsNotSent(e: Editor, cloud: Cloud, save: Save)
    ensures var r := HandleConfirmedSubmit(RemoveMainImage(e), cloud, save);
      && (r.sent.Some? ==> r.sent.value.mainImage == "")
      && (e.additionalFiles == [] ==> r.sent.Some?)
  {
  }

  /** `handleMainImageChange` with the first chosen file, if any: a valid
      file becomes the new main file and clears the error; an invalid one
      only sets the error. The stored main URL is kept either way. */
  function HandleMainImageChange(e: Editor, chosen: Option<File>): (r: Editor)
    ensures chosen.None? ==> r == e
    ensures chosen.Some? && ValidateImageFile(chosen.value).None? ==>
      r == e.(mainImageFile := chosen, error := None)
    ensures chosen.Some? && ValidateImageFile(chosen.value).Some? ==>
      r == e.(error := ValidateImageFile(chosen.value))
  {
    match chosen
    case None => e
    case Some(file) =>
      var problem := ValidateImageFile(file);
      if problem.Some? then e.(error := problem) else e.(mainImageFile := chosen, error := None)
  }

  /** `replaceMainImage`: like choosing a main file, except that a valid
      file also clears the stored main URL so that its preview shows. */
  function ReplaceMainImage(e: Editor, chosen: Option<File>): (r: Editor)
    ensures chosen.None? ==> r == e
    ensures chosen.Some? && ValidateImageFile(chosen.value).None? ==>
      r.mainImageFile == chosen && r.form == e.form.(mainImage := "") && r.error.None?
    ensures chosen.Some? && ValidateImageFile(chosen.value).Some? ==>
      r.mainImageFile == e.mainImageFile && r.form == e.form && r.error == ValidateImageFile(chosen.value)
    ensures chosen.Some? ==> r == HandleMainImageChange(e, chosen).(form := r.form)
  {
    match chosen
    case None => e
    case Some(file) =>
      var problem := ValidateImageFile(file);
      if problem.Some? then e.(error := problem)
      else e.(mainImageFile := chosen, form := e.form.(mainImage := ""), error := None)
  }

  /** The previews of a batch, file `k` shown by object URL `k`. */
  function PreviewsOf(files: seq<File>, urls: seq<string>): (r: seq<Preview>)
    requires |urls| == |files|
    ensures |r| == |files|
    ensures forall k :: 0 <= k < |r| ==> r[k] == Preview(files[k], urls[k])
  {
    seq(|files|, k requires 0 <= k < |files| => Preview(files[k], urls[k]))
  }

  /** `handleAdditionalImagesChange` with a chosen batch and the object
      URLs the browser makes for it: all or nothing. When every file passes
      they are appended in order, with their previews, and the error is
      cleared; otherwise the first failing file's message is shown and no
      file of the batch is added. */
  function HandleAdditionalImagesChange(e: Editor, files: seq<File>, urls: seq<string>): (r: Editor)
    requires |urls| == |files|
    ensures FirstInvalid(files).None? ==>
      && r.additionalFiles == e.additionalFiles + files
      && r.previews == e.previews + PreviewsOf(files, urls)
      && r.error.None?
      && r == e.(additionalFiles := r.additionalFiles, previews := r.previews, error := None)
    ensures FirstInvalid(files).Some? ==> r == e.(error := FirstInvalid(files))
  {
    var problem := FirstInvalid(files);
    if problem.Some? then e.(error := problem)
    else
      e.(additionalFiles := e.additionalFiles + files,
         previews := e.previews + PreviewsOf(files, urls), error := None)
  }

  /** Adding a batch keeps the previews aligned with the files. */
  lemma AddBatchKeepsAligned(e: Editor, files: seq<File>, urls: seq<string>)
    requires |urls| == |files| && Aligned(e)
    ensures Aligned(HandleAdditionalImagesChange(e, files, urls))
  {
    var r := HandleAdditionalImagesChange(e, files, urls);
    if FirstInvalid(files).None? {
      forall k | 0 <= k < |r.previews| ensures r.previews[k].file == r.additionalFiles[k] {
        if k >= |e.previews| {
          assert r.previews[k] == PreviewsOf(files, urls)[k - |e.previews|];
          assert r.additionalFiles[k] == files[k - |e.previews|];
        }
      }
    }
  }

  // ---------------------------------------------------------------------
  // Uploading one file
  // ---------------------------------------------------------------------

  /** The upload strategies, in the order they are tried: the presets
      "ml_default", "unsigned_preset" and "default", then no preset. */
  datatype Preset = MlDefault | UnsignedPreset | DefaultPreset | NoPreset

  const Strategies := [MlDefault, UnsignedPreset, DefaultPreset, NoPreset]

  /** What one upload attempt came to: a stored image's URL, a response
      with an error status and its body, or an error thrown on the way
      (a failed `fetch`, an unreadable body). */
  datatype Attempt = Uploaded(url: string) | Rejected(status: nat, body: string) | Threw(message: string)

  /** The error a rejected response raises inside the strategy loop. */
  function RejectionMessage(status: nat, body: string): string {
    "Upload failed: " + NatToString(status) + " - " + body
  }

  /** The message of a failed attempt. */
  function AttemptMessage(a: Attempt): string
    requires !a.Uploaded?
  {
    match a
    case Rejected(status, body) => RejectionMessage(status, body)
    case Threw(message) => message
  }

  /** A failed attempt lets the loop go on to the next strategy: a body
      naming a missing or invalid preset is passed over at once, and any
      other failure only when its message mentions "preset". */
  predicate MovesOn(a: Attempt) {
    match a
    case Uploaded(_) => false
    case Rejected(status, body) =>
      Contains(body, "Upload preset not found") || Contains(body, "Invalid upload preset")
      || Contains(RejectionMessage(status, body), "preset")
    case Threw(message) => Contains(message, "preset")
  }

  /** "preset" does not occur in the text a rejection puts before the body,
      nor across its end. */
  /** The only "p" in the text a rejection puts before the body is the one
      in "Upload", and it is followed by "l". */
  lemma RejectionPrefixLetters(status: nat)
    ensures var prefix := "Upload failed: " + NatToString(status) + " - ";
      |prefix| >= 3 && prefix[2] == 'l'
      && forall j :: 0 <= j < |prefix| && prefix[j] == 'p' ==> j == 1
  {
    var digits := NatToString(status);
    var prefix := "Upload failed: " + digits + " - ";
    forall j | 0 <= j < |prefix| ensures prefix[j] == 'p' ==> j == 1 {
      if j < 15 {
        assert prefix[j] == "Upload failed: "[j];
      } else if j < 15 + |digits| {
        assert prefix[j] == digits[j - 15];
      } else {
        assert prefix[j] == " - "[j - 15 - |digits|];
      }
    }
  }

  /** "preset" does not occur in the text a rejection puts before the body,
      nor across its end. */
  lemma PresetNotInRejectionPrefix(status: nat, body: string, i: int)
    requires OccursAt(RejectionMessage(status, body), "preset", i)
    ensures i >= |"Upload failed: " + NatToString(status) + " - "|
  {
    var prefix := "Upload failed: " + NatToString(status) + " - ";
    var m := RejectionMessage(status, body);
    assert m == prefix + body;
    assert m[i..i + 6] == "preset";
    assert m[i] == 'p' && m[i + 1] == 'r';
    RejectionPrefixLetters(status);
  }

  /** Both phrases naming a bad preset contain the word "preset". */
  lemma PresetPhrasesMentionPreset(body: string)
    ensures Contains(body, "Upload preset not found") ==> Contains(body, "preset")
    ensures Contains(body, "Invalid upload preset") ==> Contains(body, "preset")
  {
    if Contains(body, "Upload preset not found") {
      assert OccursAt("Upload preset not found", "preset", 7);
      ContainsTransitive(body, "Upload preset not found", "preset");
    }
    if Contains(body, "Invalid upload preset") {
      assert OccursAt("Invalid upload preset", "preset", 15);
      ContainsTransitive(body, "Invalid upload preset", "preset");
    }
  }

  /** "preset" occurs in a rejection message only inside its body. */
  lemma PresetInRejectionIsInBody(status: nat, body: string)
    ensures Contains(RejectionMessage(status, body), "preset") ==> Contains(body, "preset")
  {
    var prefix := "Upload failed: " + NatToString(status) + " - ";
    var m := RejectionMessage(status, body);
    if Contains(m, "preset") {
      var i :| 0 <= i <= |m| && OccursAt(m, "preset", i);
      PresetNotInRejectionPrefix(status, body, i);
      assert m == prefix + body;
      assert m[i..i + 6] == body[i - |prefix|..i - |prefix| + 6];
      assert OccursAt(body, "preset", i - |prefix|);
    }
  }

  /** A rejected upload is passed over exactly when its body mentions
      "preset": the two phrases checked first both contain the word, and
      the status and separators the message adds cannot contribute it. */
  lemma {:induction false} RejectionMovesOnIffBodyMentionsPreset(status: nat, body: string)
    ensures MovesOn(Rejected(status, body)) <==> Contains(body, "preset")
  {
    var prefix := "Upload failed: " + NatToString(status) + " - ";
    PresetPhrasesMentionPreset(body);
    PresetInRejectionIsInBody(status, body);
    if Contains(body, "preset") {
      ContainsAfterPrefix(prefix, body, "preset");
    }
  }

  /** The course of one upload: the strategies tried, in order, whether
      the fallback was used, and the URL or the error message. */
  datatype Upload = Upload(tried: seq<Preset>, fallback: bool, outcome: Result<string, string>)

  /** The strategy loop over `presets`, each answered by `respond`. It stops
      at the first stored image, or at the first failure that does not
      mention a preset, whose message becomes the error; when every
      strategy fails over a preset, the fallback's data URL is the result. */
  function RunStrategies(presets: seq<Preset>, respond: Preset -> Attempt, dataUrl: string): (r: Upload)
    ensures r.tried <= presets
    ensures forall k :: 0 <= k < |r.tried| - 1 ==> MovesOn(respond(r.tried[k]))
    ensures r.fallback <==> r.tried == presets && forall k :: 0 <= k < |presets| ==> MovesOn(respond(presets[k]))
    ensures r.fallback ==> r.outcome == Ok(dataUrl)
    ensures !r.fallback ==>
      && |r.tried| > 0
      && !MovesOn(respond(r.tried[|r.tried| - 1]))
      && r.outcome == (match respond(r.tried[|r.tried| - 1])
                       case Uploaded(url) => Ok(url)
                       case Rejected(status, body) => Err(RejectionMessage(status, body))
                       case Threw(message) => Err(message))
    decreases |presets|
  {
    if |presets| == 0 then Upload([], true, Ok(dataUrl))
    else
      var a := respond(presets[0]);
      if MovesOn(a) then
        var rest := RunStrategies(presets[1..], respond, dataUrl);
        assert forall k :: 1 <= k < |presets| ==> presets[k] == presets[1..][k - 1];
        Upload([presets[0]] + rest.tried, rest.fallback, rest.outcome)
      else if a.Uploaded? then Upload([presets[0]], false, Ok(a.url))
      else Upload([presets[0]], false, Err(AttemptMessage(a)))
  }

  /** `uploadToCloudinary`: a file that fails the check is never sent;
      otherwise the strategies are tried in their fixed order. Every error
      leaves wrapped as "Image upload failed: ...". */
  function UploadToCloudinary(file: File, respond: Preset -> Attempt, dataUrl: string): (r: Upload)
    ensures ValidateImageFile(file).Some? ==>
      r == Upload([], false, Err(UploadFailedPrefix + ValidateImageFile(file).value))
    ensures ValidateImageFile(file).None? ==>
      var run := RunStrategies(Strategies, respond, dataUrl);
      r.tried == run.tried && r.fallback == run.fallback
      && (run.outcome.Ok? ==> r.outcome == run.outcome)
      && (run.outcome.Err? ==> r.outcome == Err(UploadFailedPrefix + run.outcome.error))
    ensures r.outcome.Err? ==> UploadFailedPrefix <= r.outcome.error
  {
    var problem := ValidateImageFile(file);
    if problem.Some? then Upload([], false, Err(UploadFailedPrefix + problem.value))
    else
      var run := RunStrategies(Strategies, respond, dataUrl);
      match run.outcome
      case Ok(_) => run
      case Err(message) => run.(outcome := Err(UploadFailedPrefix + message))
  }

  /** The fallback is reached only after all four strategies were tried
      and each failed over a preset; and a first strategy that stores the
      image ends the upload with its URL. */
  lemma FallbackOnlyAfterEveryPreset(file: File, respond: Preset -> Attempt, dataUrl: string)
    requires ValidateImageFile(file).None?
    ensures UploadToCloudinary(file, respond, dataUrl).fallback <==>
      forall k :: 0 <= k < 4 ==> MovesOn(respond(Strategies[k]))
    ensures respond(MlDefault).Uploaded? ==>
      UploadToCloudinary(file, respond, dataUrl) == Upload([MlDefault], false, Ok(respond(MlDefault).url))
  {
  }

  // ---------------------------------------------------------------------
  // The confirmed submit
  // ---------------------------------------------------------------------

  /** The upload service and the browser, as seen by the submit: whether
      the service answers the connectivity probe, how it answers each
      attempt, and the data URL the fallback reads from a file. */
  datatype Cloud = Cloud(reachable: bool, respond: (File, Preset) -> Attempt, dataUrl: File -> string)

  function UploadFile(cloud: Cloud, file: File): Upload {
    UploadToCloudinary(file, p => cloud.respond(file, p), cloud.dataUrl(file))
  }

  /** What uploading each of `files` on its own would come to. */
  function Outcomes(cloud: Cloud, files: seq<File>): (r: seq<Result<string, string>>)
    ensures |r| == |files|
    ensures forall k :: 0 <= k < |files| ==> r[k] == UploadFile(cloud, files[k]).outcome
  {
    seq(|files|, k requires 0 <= k < |files| => UploadFile(cloud, files[k]).outcome)
  }

  /** The new files uploaded one after another, stopping at the first
      failure: the URLs in file order, or the first failure's message. */
  function UploadAll(cloud: Cloud, files: seq<File>): (r: Result<seq<string>, string>)
    ensures r.Ok? ==>
      && |r.value| == |files|
      && forall k :: 0 <= k < |files| ==> UploadFile(cloud, files[k]).outcome == Ok(r.value[k])
    ensures r.Err? ==>
      exists k :: FirstErrAt(Outcomes(cloud, files), k) && UploadFile(cloud, files[k]).outcome == Err(r.error)
  {
    Gather(Outcomes(cloud, files))
  }

  /** The body of `PUT /api/projects/{id}`: the ten fields the backend
      takes. */
  datatype Payload = Payload(
    name: string, description: string, status: string,
    mainImage: string, allImages: seq<string>,
    area: int, flow: int, bedrooms: int, bathrooms: int,
    customerFeedback: string)

  /** The update built from the form, the uploaded main image's URL if a
      new one was chosen, and the uploaded URLs of the new files. */
  function BuildPayload(form: Form, mainUrl: Option<string>, uploaded: seq<string>): (r: Payload)
    ensures r.allImages == form.allImages + uploaded
    ensures r.mainImage == mainUrl.GetOr(form.mainImage)
    ensures r.name == form.name && r.description == form.description && r.status == form.status
    ensures r.area == form.area && r.flow == form.flow
    ensures r.bedrooms == form.bedrooms && r.bathrooms == form.bathrooms
    ensures r.customerFeedback == form.customerFeedback
  {
    Payload(form.name, form.description, form.status, mainUrl.GetOr(form.mainImage),
            form.allImages + uploaded, form.area, form.flow, form.bedrooms, form.bathrooms,
            form.customerFeedback)
  }

  /** How the backend answered the update: stored, an error status, or an
      error thrown by `fetch` with its message. */
  datatype Save = Saved | NotOk | SaveThrew(message: string)

  /** New images are waiting but the service does not answer the probe. */
  predicate Blocked(e: Editor, cloud: Cloud) {
    (e.mainImageFile.Some? || |e.additionalFiles| > 0) && !cloud.reachable
  }

  /** The outcome of uploading the new main file, if one was chosen. */
  function MainUpload(e: Editor, cloud: Cloud): Option<Result<string, string>> {
    if e.mainImageFile.Some? then Some(UploadFile(cloud, e.mainImageFile.value).outcome) else None
  }

  /** No main file is waiting, or it was uploaded. */
  predicate MainUploaded(e: Editor, cloud: Cloud) {
    MainUpload(e, cloud).None? || MainUpload(e, cloud).value.Ok?
  }

  /** The uploaded main file's URL, when there is one. */
  function MainUrl(e: Editor, cloud: Cloud): Option<string>
    requires MainUploaded(e, cloud)
  {
    if MainUpload(e, cloud).Some? then Some(MainUpload(e, cloud).value.value) else None
  }

  /** The result of a confirmed submit: the editor afterwards and the
      update sent, if one was. */
  datatype Submitted = Submitted(editor: Editor, sent: Option<Payload>)

  /** `handleConfirmedSubmit`. With new images to upload, an unreachable
      service stops everything first. Then the main file and the new files
      are uploaded, the first failure stopping the submit with its message
      prefixed by which upload failed. Otherwise the update is sent; once
      stored, the pending files, previews and removals are cleared and the
      success popup shows. Any failure leaves the form and the pending
      images as they were and shows its message. */
  function HandleConfirmedSubmit(e: Editor, cloud: Cloud, save: Save): (r: Submitted)
    ensures !r.editor.showConfirmPopup
    ensures Blocked(e, cloud) ==>
      r.sent.None? && r.editor == e.(showConfirmPopup := false, error := Some(UnreachableMessage))
    ensures !Blocked(e, cloud) && MainUpload(e, cloud).Some? && MainUpload(e, cloud).value.Err? ==>
      && r.sent.None?
      && r.editor == e.(showConfirmPopup := false, error := Some(MainFailedPrefix + MainUpload(e, cloud).value.error))
    ensures !Blocked(e, cloud) && MainUploaded(e, cloud) && UploadAll(cloud, e.additionalFiles).Err? ==>
      && r.sent.None?
      && r.editor == e.(showConfirmPopup := false,
                        error := Some(AdditionalFailedPrefix + UploadAll(cloud, e.additionalFiles).error))
    ensures !Blocked(e, cloud) && MainUploaded(e, cloud) && UploadAll(cloud, e.additionalFiles).Ok? ==>
      r.sent == Some(BuildPayload(e.form, MainUrl(e, cloud), UploadAll(cloud, e.additionalFiles).value))
    ensures r.sent.Some? ==>
      && !Blocked(e, cloud) && MainUploaded(e, cloud) && UploadAll(cloud, e.additionalFiles).Ok?
      && r.sent.value == BuildPayload(e.form, MainUrl(e, cloud), UploadAll(cloud, e.additionalFiles).value)
    ensures r.sent.Some? && save == Saved ==>
      && r.editor.mainImageFile.None? && r.editor.additionalFiles == [] && r.editor.previews == []
      && r.editor.imagesToRemove == [] && r.editor.showSuccessPopup && r.editor.form == e.form
      && r.editor.error == e.error
    ensures !(r.sent.Some? && save == Saved) ==>
      r.editor == e.(showConfirmPopup := false, error := r.editor.error) && r.editor.error.Some?
    ensures r.sent.Some? && save == NotOk ==> r.editor.error == Some(UpdateFailed)
    ensures r.sent.Some? && save.SaveThrew? ==> r.editor.error == Some(save.message)
    ensures Aligned(e) ==> Aligned(r.editor)
  {
    var closed := e.(showConfirmPopup := false);
    if Blocked(e, cloud) then
      Submitted(closed.(error := Some(UnreachableMessage)), None)
    else if !MainUploaded(e, cloud) then
      Submitted(closed.(error := Some(MainFailedPrefix + MainUpload(e, cloud).value.error)), None)
    else
      var extra := UploadAll(cloud, e.additionalFiles);
      if extra.Err? then
        Submitted(closed.(error := Some(AdditionalFailedPrefix + extra.error)), None)
      else
        var payload := BuildPayload(e.form, MainUrl(e, cloud), extra.value);
        match save
        case Saved =>
          Submitted(closed.(mainImageFile := None, additionalFiles := [], imagesToRemove := [],
                            previews := [], showSuccessPopup := true), Some(payload))
        case NotOk => Submitted(closed.(error := Some(UpdateFailed)), Some(payload))
        case SaveThrew(message) => Submitted(closed.(error := Some(message)), Some(payload))
  }

  /** With nothing new to upload, the update carries the form's own main
      image and image list, whatever the upload service would do. */
  lemma NothingToUploadKeepsImages(e: Editor, cloud: Cloud, save: Save)
    requires e.mainImageFile.None? && e.additionalFiles == []
    ensures var r := HandleConfirmedSubmit(e, cloud, save);
      r.sent.Some? && r.sent.value.mainImage == e.form.mainImage
      && r.sent.value.allImages == e.form.allImages
  {
  }

  /** Removing stored image `i` and then submitting sends the list without
      that image, followed by the new uploads. */
  lemma RemovedImageIsNotSent(e: Editor, url: string, i: int, cloud: Cloud, save: Save)
    requires 0 <= i < |e.form.allImages|
    ensures var r := HandleConfirmedSubmit(RemoveExistingImage(e, url, i), cloud, save);
      r.sent.Some? ==>
        r.sent.value.allImages == e.form.allImages[..i] + e.form.allImages[i + 1..] + UploadAll(cloud, e.additionalFiles).value
  {
  }
}
