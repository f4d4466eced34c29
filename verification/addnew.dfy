/** The new-project form (src/components/Addnew.jsx): the four optional
    fields that are switched on and off, the chosen images and their
    previews, and the reset button. Previews are read asynchronously by the
    browser; the model keeps the list the operations here touch. */
module AddNew {
  import opened Results
  import opened Lists
  import opened Files

  /** The optional fields, each with a switch and a text. */
  datatype OptionalKey = Area | Flow | Bedrooms | Bathrooms

  datatype OptionalField = OptionalField(enabled: bool, details: string)

  const Off := OptionalField(false, "")

  datatype Form = Form(
    projectName: string, description: string,
    mainImage: Option<File>, allImages: seq<File>,
    area: OptionalField, flow: OptionalField, bedrooms: OptionalField, bathrooms: OptionalField,
    customerFeedback: string)

  /** The page: the form, the main image's preview and the previews of
      the other images. */
  datatype State = State(form: Form, imagePreview: Option<string>, previews: seq<string>)

  /** The form as the page first shows it, and as reset leaves it. */
  const InitialForm := Form("", "", None, [], Off, Off, Off, Off, "")

  const Initial := State(InitialForm, None, [])

  function Field(form: Form, key: OptionalKey): OptionalField {
    match key
    case Area => form.area
    case Flow => form.flow
    case Bedrooms => form.bedrooms
    case Bathrooms => form.bathrooms
  }

  /** The form with one optional field replaced: that field reads back as
      given and nothing else changes. */
  function WithField(form: Form, key: OptionalKey, value: OptionalField): (r: Form)
    ensures Field(r, key) == value
    ensures forall other :: other != key ==> Field(r, other) == Field(form, other)
    ensures r.projectName == form.projectName && r.description == form.description
    ensures r.mainImage == form.mainImage && r.allImages == form.allImages
    ensures r.customerFeedback == form.customerFeedback
  {
    match key
    case Area => form.(area := value)
    case Flow => form.(flow := value)
    case Bedrooms => form.(bedrooms := value)
    case Bathrooms => form.(bathrooms := value)
  }

  /** `handleOptionalFieldToggle`: the switch flips; switching on keeps the
      text typed before, switching off empties it. No other field changes. */
  function Toggle(form: Form, key: OptionalKey): (r: Form)
    ensures Field(r, key).enabled == !Field(form, key).enabled
    ensures Field(r, key).details == if Field(form, key).enabled then "" else Field(form, key).details
    ensures r == WithField(form, key, Field(r, key))
  {
    var f := Field(form, key);
    WithField(form, key, OptionalField(!f.enabled, if !f.enabled then f.details else ""))
  }

  /** Toggling twice puts the switch back but always empties the text:
      whichever way the first toggle goes, the second or the first switches
      the field off. The field comes back unchanged exactly when it had no
      text. */
  lemma ToggleTwice(form: Form, key: OptionalKey)
    ensures Field(Toggle(Toggle(form, key), key), key) == Field(form, key).(details := "")
    ensures Toggle(Toggle(form, key), key) == form <==> Field(form, key).details == ""
  {
    var twice := Toggle(Toggle(form, key), key);
    if Field(form, key).details == "" {
      assert twice == WithField(form, key, Field(form, key));
      match key
      case Area =>
      case Flow =>
      case Bedrooms =>
      case Bathrooms =>
    } else {
      assert Field(twice, key) != Field(form, key);
    }
  }

  /** `handleOptionalFieldChange`: the field's text becomes `value`, its
      switch and every other field are untouched. */
  function ChangeDetails(form: Form, key: OptionalKey, value: string): (r: Form)
    ensures Field(r, key) == OptionalField(Field(form, key).enabled, value)
    ensures r == WithField(form, key, Field(r, key))
  {
    WithField(form, key, Field(form, key).(details := value))
  }

  /** Text typed while a field is switched off survives switching it on. */
  lemma TypedTextSurvivesSwitchingOn(form: Form, key: OptionalKey, value: string)
    requires !Field(form, key).enabled
    ensures Field(Toggle(ChangeDetails(form, key, value), key), key) == OptionalField(true, value)
  {
  }

  /** `handleMainImageChange` with the first chosen file, if any: it
      becomes the main image. */
  function HandleMainImageChange(s: State, chosen: Option<File>): (r: State)
    ensures chosen.Some? ==> r.form.mainImage == chosen
    ensures chosen.None? ==> r == s
    ensures r == s.(form := s.form.(mainImage := r.form.mainImage))
  {
    if chosen.Some? then s.(form := s.form.(mainImage := chosen)) else s
  }

  /** Only the latest choice of main image counts, and choosing nothing
      keeps the earlier one. */
  lemma LatestMainImageWins(s: State, first: Option<File>, second: File)
    ensures HandleMainImageChange(HandleMainImageChange(s, first), Some(second))
      == HandleMainImageChange(s, Some(second))
    ensures HandleMainImageChange(HandleMainImageChange(s, Some(second)), None)
      == HandleMainImageChange(s, Some(second))
  {
  }

  /** `handleAllImagesChange`: the chosen files replace the image list. */
  function HandleAllImagesChange(s: State, files: seq<File>): (r: State)
    ensures r.form.allImages == files
    ensures r == s.(form := s.form.(allImages := files))
  {
    s.(form := s.form.(allImages := files))
  }

  /** Choosing the image list again forgets the earlier choice, while
      adding more to a fresh choice is the same as choosing both batches at
      once. */
  lemma ChoosingAgainReplaces(s: State, first: seq<File>, second: seq<File>)
    ensures HandleAllImagesChange(HandleAllImagesChange(s, first), second) == HandleAllImagesChange(s, second)
    ensures HandleAddMoreImages(HandleAllImagesChange(s, first), second) == HandleAllImagesChange(s, first + second)
  {
    if |second| == 0 {
      assert first + second == first;
    }
  }

  /** `handleAddMoreImages`: a non-empty choice is appended after the
      images already there, in order; an empty one changes nothing. */
  function HandleAddMoreImages(s: State, files: seq<File>): (r: State)
    ensures |files| == 0 ==> r == s
    ensures |files| > 0 ==> r == s.(form := s.form.(allImages := s.form.allImages + files))
    ensures r.form.allImages[..|s.form.allImages|] == s.form.allImages
    ensures r.form.allImages[|s.form.allImages|..] == files
  {
    if |files| > 0 then s.(form := s.form.(allImages := s.form.allImages + files)) else s
  }

  /** `removeImage(i)`: entry `i` leaves both the image list and the
      previews, the others keeping their order. */
  function RemoveImage(s: State, i: int): (r: State)
    ensures 0 <= i < |s.form.allImages| ==>
      r.form.allImages == s.form.allImages[..i] + s.form.allImages[i + 1..]
    ensures 0 <= i < |s.previews| ==> r.previews == s.previews[..i] + s.previews[i + 1..]
    ensures |s.form.allImages| == |s.previews| ==> |r.form.allImages| == |r.previews|
    ensures r == s.(form := s.form.(allImages := r.form.allImages), previews := r.previews)
  {
    RemoveAtLength(s.form.allImages, s.previews, i);
    s.(form := s.form.(allImages := RemoveAt(s.form.allImages, i)), previews := RemoveAt(s.previews, i))
  }

  /** Adding images and then removing one of the new ones leaves the list
      as if only the others had been added. */
  lemma RemoveAddedImage(s: State, files: seq<File>, j: int)
    requires 0 <= j < |files|
    ensures RemoveImage(HandleAddMoreImages(s, files), |s.form.allImages| + j).form.allImages
      == s.form.allImages + (files[..j] + files[j + 1..])
  {
    var xs := s.form.allImages;
    var i := |xs| + j;
    assert (xs + files)[..i] == xs + files[..j];
    assert (xs + files)[i + 1..] == files[j + 1..];
  }

  /** `handleReset`: the initial form, no main preview and no previews. */
  function Reset(s: State): (r: State)
    ensures r.form.allImages == [] && r.form.mainImage.None? && r.previews == [] && r.imagePreview.None?
    ensures forall key :: Field(r.form, key) == Off
    ensures r.form.projectName == "" && r.form.description == "" && r.form.customerFeedback == ""
  {
    Initial
  }

  /** Reset forgets everything: the page after a reset does not depend on
      what was there before, and is the page as first shown. */
  lemma ResetForgets(s: State, t: State)
    ensures Reset(s) == Reset(t) == Initial
  {
  }
}
