/** The decision logic of the media screens: the prompt and image guards, the data-URL
    splitting that turns an uploaded image into service arguments, and the way the Veo
    screen reports progress and routes errors to its status line. The service calls are
    not modelled; their outcome is a parameter. */
module AiMedia {
  import opened Wrappers
  import Base64
  import DataUrl
  import Gemini

  /** `ImageGenerator.handleGen`: the prompt it sends, or nothing for an empty prompt. */
  function ImageRequest(prompt: string): (r: Option<string>)
    ensures r.None? <==> prompt == ""
    ensures r.Some? ==> r.value == prompt
  {
    if prompt == "" then None else Some(prompt)
  }

  /** The arguments `ImageEditor.handleEdit` passes to `editImage`; a part the image URL
      lacks is `undefined`, here None. */
  datatype EditCall = EditCall(base64: Option<string>, prompt: string, mimeType: Option<string>)

  /** `handleEdit`: no call without an image or without a prompt; otherwise the payload and
      the MIME type cut out of the image's data URL. */
  function EditRequest(image: Option<string>, prompt: string): (r: Option<EditCall>)
    ensures r.None? <==> !Truthy(image) || prompt == ""
    ensures r.Some? ==> r.value.prompt == prompt
    ensures r.Some? ==> (r.value.base64.Some? <==> ',' in image.value)
  {
    if !Truthy(image) || prompt == "" then None
    else Some(EditCall(DataUrl.Payload(image.value), prompt, DataUrl.MimeType(image.value)))
  }

  /** An uploaded file, read as a data URL, reaches `editImage` as exactly its base64 text
      and its MIME type. */
  lemma EditRequestOfUpload(mime: string, binary: string, prompt: string)
    requires ':' !in mime && ';' !in mime && ',' !in mime
    requires Base64.Btoa(binary).Some? && prompt != ""
    ensures var r := EditRequest(Some(DataUrl.Build(mime, Base64.Btoa(binary).value)), prompt);
      r == Some(EditCall(Base64.Btoa(binary), prompt, Some(mime)))
  {
    DataUrl.PartsOfEncoded(mime, binary);
  }

  // ---------------------------------------------------------------------------
  // Veo
  // ---------------------------------------------------------------------------

  const KeySelectedStatus := "Key selected. Click Generate again."
  const InitializingStatus := "Initializing Veo..."
  const PaidKeyStatus := "Please select a paid API key to use Veo."
  const FailurePrefix := "Generation failed. "

  /** What the Veo screen shows. */
  datatype VeoScreen = VeoScreen(status: string, videoUrl: Option<string>, loading: bool)

  /** The image half of a `generateVeoVideo` call: base64 text and MIME type, each possibly
      `undefined`. */
  datatype ImageParts = ImageParts(base64: Option<string>, mimeType: Option<string>)

  datatype VeoCall = VeoCall(prompt: string, image: Option<ImageParts>)

  /** The first half of `handleGenerate`, up to the service call. Without a paid key the
      key selector is opened (the boolean) and the user asked to click again; an empty
      prompt does nothing; otherwise the screen starts loading and the call is made, with
      the image parts exactly when an image is loaded. */
  function VeoStart(s: VeoScreen, key: Gemini.KeySelector, prompt: string, image: Option<string>)
    : (r: (VeoScreen, Option<VeoCall>, bool))
    ensures r.2 <==> key == Gemini.NoKeySelected
    ensures key == Gemini.NoKeySelected ==> r == (s.(status := KeySelectedStatus), None, true)
    ensures key != Gemini.NoKeySelected && prompt == "" ==> r == (s, None, false)
    ensures r.1.Some? <==> key != Gemini.NoKeySelected && prompt != ""
    ensures r.1.Some? ==> r.0 == s.(status := InitializingStatus, loading := true)
    ensures r.1.Some? ==> r.1.value.prompt == prompt && (r.1.value.image.Some? <==> Truthy(image))
  {
    if key == Gemini.NoKeySelected then (s.(status := KeySelectedStatus), None, true)
    else if prompt == "" then (s, None, false)
    else
      var parts := if Truthy(image)
        then Some(ImageParts(DataUrl.Payload(image.value), DataUrl.MimeType(image.value)))
        else None;
      (s.(status := InitializingStatus, loading := true), Some(VeoCall(prompt, parts)), false)
  }

  /** The status line for an error message. */
  function ErrorStatus(message: string): (r: string)
    ensures message == Gemini.KeyRequired ==> r == PaidKeyStatus
    ensures message != Gemini.KeyRequired ==> r == FailurePrefix + message
  {
    if message == Gemini.KeyRequired then PaidKeyStatus else FailurePrefix + message
  }

  /** Reads the error message back from a status line written by `ErrorStatus`. */
  function ErrorOfStatus(status: string): Option<string>
  {
    if status == PaidKeyStatus then Some(Gemini.KeyRequired)
    else if |FailurePrefix| <= |status| && status[..|FailurePrefix|] == FailurePrefix
    then Some(status[|FailurePrefix|..])
    else None
  }

  /** No two error messages share a status line: the message can always be recovered. */
  lemma ErrorStatusRoundTrip(message: string)
    ensures ErrorOfStatus(ErrorStatus(message)) == Some(message)
  {
    if message != Gemini.KeyRequired {
      var st := FailurePrefix + message;
      assert st[..|FailurePrefix|] == FailurePrefix;
      assert st[|FailurePrefix|..] == message;
      assert st != PaidKeyStatus by {
        assert st[0] == 'G' && PaidKeyStatus[0] == 'P';
      }
    }
  }

  /** The second half of `handleGenerate`: loading stops; a video URL clears the status and
      is shown; an error leaves the video alone and is reported on the status line. The
      boolean says whether the key selector is opened again, which happens for a missing
      paid key only. */
  function VeoFinish(s: VeoScreen, outcome: Result<string, string>): (r: (VeoScreen, bool))
    ensures !r.0.loading
    ensures outcome.Success? ==> r.0.videoUrl == Some(outcome.value) && r.0.status == "" && !r.1
    ensures outcome.Failure? ==> r.0.videoUrl == s.videoUrl
    ensures outcome.Failure? ==> ErrorOfStatus(r.0.status) == Some(outcome.error)
    ensures outcome.Failure? ==> (r.1 <==> outcome.error == Gemini.KeyRequired)
  {
    match outcome
    case Success(url) => (VeoScreen("", Some(url), false), false)
    case Failure(m) =>
      ErrorStatusRoundTrip(m);
      (s.(status := ErrorStatus(m), loading := false), m == Gemini.KeyRequired)
  }

  /** The request `generateVeoVideo` builds from the call; its own key check is made again
      with `key`. The screen never passes an aspect ratio, so every video is 16:9, and the
      image travels only when both of its cut-out parts are non-empty. */
  function VeoRequestOf(call: VeoCall, key: Gemini.KeySelector): (r: Result<Gemini.VeoArgs, string>)
    ensures r.Failure? <==> key == Gemini.NoKeySelected
    ensures r.Success? ==> r.value.prompt == call.prompt && r.value.config.aspectRatio == Gemini.Landscape
    ensures r.Success? ==>
      (r.value.image.Some? <==>
        call.image.Some? && Truthy(call.image.value.base64) && Truthy(call.image.value.mimeType))
  {
    match call.image
    case None => Gemini.VeoRequest(key, call.prompt, None, None, None)
    case Some(parts) => Gemini.VeoRequest(key, call.prompt, parts.base64, parts.mimeType, None)
  }

  /** An uploaded image reaches the Veo request as its base64 text and MIME type; without
      an image the request has none. */
  lemma VeoImageOfUpload(s: VeoScreen, key: Gemini.KeySelector, prompt: string, mime: string, binary: string)
    requires key == Gemini.KeySelected && prompt != ""
    requires ':' !in mime && ';' !in mime && ',' !in mime && mime != ""
    requires Base64.Btoa(binary).Some? && binary != ""
    ensures var call := VeoStart(s, key, prompt, Some(DataUrl.Build(mime, Base64.Btoa(binary).value))).1.value;
      VeoRequestOf(call, key).Success?
      && VeoRequestOf(call, key).value.image == Some(Gemini.VeoImage(Base64.Btoa(binary).value, mime))
  {
    DataUrl.PartsOfEncoded(mime, binary);
  }

  lemma VeoWithoutImage(s: VeoScreen, key: Gemini.KeySelector, prompt: string)
    requires key == Gemini.KeySelected && prompt != ""
    ensures var call := VeoStart(s, key, prompt, None).1.value;
      VeoRequestOf(call, key).Success? && VeoRequestOf(call, key).value.image.None?
  {
  }

  /** A key lost between the screen's check and the service's own one surfaces as the
      paid-key status, and the selector is opened again. */
  lemma LostKeyReported(s: VeoScreen, call: VeoCall)
    ensures VeoRequestOf(call, Gemini.NoKeySelected).Failure?
    ensures var r := VeoFinish(s, Failure(VeoRequestOf(call, Gemini.NoKeySelected).error));
      r.0.status == PaidKeyStatus && r.1
  {
  }
}
