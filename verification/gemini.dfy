/** The pure post-processing around the generative-AI service calls: which tools a text
    request carries, the default texts for an empty answer, the web sources taken from the
    grounding chunks, the first inline image of an answer, and the Veo request with its
    paid-key precheck. The calls themselves are not modelled: a response is a value given to
    these functions. */
module Gemini {
  import opened Wrappers
  import DataUrl

  // ---------------------------------------------------------------------------
  // text requests
  // ---------------------------------------------------------------------------

  datatype Tool = GoogleSearch

  /** The `tools` of a text request: Google Search grounding when it was asked for. */
  function Tools(useSearch: bool): (r: seq<Tool>)
    ensures |r| <= 1
    ensures GoogleSearch in r <==> useSearch
  {
    if useSearch then [GoogleSearch] else []
  }

  const NoResponse := "No response generated."
  const EmptyJson := "{}"

  /** `text || fallback`: the answer's text unless it is missing or empty. */
  function OrDefault(text: Option<string>, fallback: string): (r: string)
    ensures Truthy(text) ==> r == text.value
    ensures !Truthy(text) ==> r == fallback
  {
    if Truthy(text) then text.value else fallback
  }

  /** The text of a search-grounded answer is never empty. */
  function SearchText(text: Option<string>): (r: string)
    ensures r != ""
    ensures Truthy(text) ==> r == text.value
    ensures !Truthy(text) ==> r == NoResponse
  {
    OrDefault(text, NoResponse)
  }

  /** The text of a specialised answer: empty exactly when the answer had none. */
  function SpecializedText(text: Option<string>): (r: string)
    ensures r == "" <==> !Truthy(text)
    ensures r != "" ==> Some(r) == text
  {
    OrDefault(text, "")
  }

  /** The text the CV generator hands to `JSON.parse`: an empty object when there is none. */
  function CvJsonText(text: Option<string>): (r: string)
    ensures r != ""
    ensures Truthy(text) ==> r == text.value
    ensures !Truthy(text) ==> r == EmptyJson
  {
    OrDefault(text, EmptyJson)
  }

  // ---------------------------------------------------------------------------
  // responses
  // ---------------------------------------------------------------------------

  datatype Web = Web(uri: Option<string>, title: Option<string>)
  datatype Chunk = Chunk(web: Option<Web>)
  datatype InlineData = InlineData(data: string, mimeType: Option<string>)
  datatype Part = Part(inlineData: Option<InlineData>, text: Option<string>)

  /** One candidate of a response. An absent grounding metadata object and an absent
      chunk list are both None; likewise an absent content and an absent part list. */
  datatype Candidate = Candidate(groundingChunks: Option<seq<Chunk>>, parts: Option<seq<Part>>)

  datatype Response = Response(text: Option<string>, candidates: seq<Candidate>)

  /** `response.candidates?.[0]?.groundingMetadata?.groundingChunks || []`. */
  function ChunksOf(resp: Response): (r: seq<Chunk>)
    ensures |resp.candidates| == 0 ==> r == []
    ensures |resp.candidates| > 0 && resp.candidates[0].groundingChunks.None? ==> r == []
    ensures |resp.candidates| > 0 && resp.candidates[0].groundingChunks.Some? ==>
      r == resp.candidates[0].groundingChunks.value
  {
    if |resp.candidates| == 0 then [] else resp.candidates[0].groundingChunks.GetOr([])
  }

  /** `response.candidates?.[0]?.content?.parts || []`. */
  function PartsOf(resp: Response): (r: seq<Part>)
    ensures |resp.candidates| == 0 ==> r == []
    ensures |resp.candidates| > 0 && resp.candidates[0].parts.None? ==> r == []
    ensures |resp.candidates| > 0 && resp.candidates[0].parts.Some? ==> r == resp.candidates[0].parts.value
  {
    if |resp.candidates| == 0 then [] else resp.candidates[0].parts.GetOr([])
  }

  // ---------------------------------------------------------------------------
  // sources
  // ---------------------------------------------------------------------------

  datatype Source = Source(uri: Option<string>, title: Option<string>)

  function SourceOf(w: Web): Source
  {
    Source(w.uri, w.title)
  }

  /** `chunks.filter(c => c.web).map(c => ({uri: c.web.uri, title: c.web.title}))`. */
  function Sources(chunks: seq<Chunk>): (r: seq<Source>)
    ensures |r| <= |chunks|
  {
    if |chunks| == 0 then []
    else (if chunks[0].web.Some? then [SourceOf(chunks[0].web.value)] else []) + Sources(chunks[1..])
  }

  /** The sources of a concatenation are the sources of each part, in order. */
  lemma {:induction false} SourcesAppend(a: seq<Chunk>, b: seq<Chunk>)
    ensures Sources(a + b) == Sources(a) + Sources(b)
  {
    if |a| > 0 {
      assert (a + b)[1..] == a[1..] + b;
      SourcesAppend(a[1..], b);
    } else {
      assert a + b == b;
    }
  }

  /** Chunks that all carry a web entry give one source each, position for position. */
  lemma {:induction false} SourcesOfWebChunks(chunks: seq<Chunk>)
    requires forall i | 0 <= i < |chunks| :: chunks[i].web.Some?
    ensures |Sources(chunks)| == |chunks|
    ensures forall i | 0 <= i < |chunks| :: Sources(chunks)[i] == SourceOf(chunks[i].web.value)
  {
    if |chunks| > 0 {
      SourcesOfWebChunks(chunks[1..]);
    }
  }

  /** Chunks without a web entry give no source. */
  lemma {:induction false} SourcesOfOtherChunks(chunks: seq<Chunk>)
    requires forall i | 0 <= i < |chunks| :: chunks[i].web.None?
    ensures Sources(chunks) == []
  {
    if |chunks| > 0 {
      SourcesOfOtherChunks(chunks[1..]);
    }
  }

  /** A source is listed exactly when some chunk carries the web entry it was made from. */
  lemma {:induction false} SourcesMembership(chunks: seq<Chunk>)
    ensures forall s :: s in Sources(chunks) <==> Chunk(Some(Web(s.uri, s.title))) in chunks
  {
    if |chunks| > 0 {
      SourcesMembership(chunks[1..]);
      assert chunks == [chunks[0]] + chunks[1..];
    }
  }

  /** The result of `generateTextWithSearch`: the text and the sources. */
  datatype Answer = Answer(text: string, sources: seq<Source>)

  /** `generateTextWithSearch`: the answer's text (or the fallback), and one source per
      chunk of the first candidate that carries a web entry. */
  function SearchAnswer(resp: Response): (r: Answer)
    ensures r.text != ""
    ensures Truthy(resp.text) ==> r.text == resp.text.value
    ensures !Truthy(resp.text) ==> r.text == NoResponse
    ensures |r.sources| <= |ChunksOf(resp)|
    ensures |resp.candidates| == 0 ==> r.sources == []
    ensures forall s :: s in r.sources <==> Chunk(Some(Web(s.uri, s.title))) in ChunksOf(resp)
  {
    SourcesMembership(ChunksOf(resp));
    Answer(SearchText(resp.text), Sources(ChunksOf(resp)))
  }

  // ---------------------------------------------------------------------------
  // images
  // ---------------------------------------------------------------------------

  const NoImage := "No image generated"
  const NoEditedImage := "No edited image returned"
  const ImageMimeType := "image/png"

  /** The position of the first part that carries inline data. */
  function FirstInline(parts: seq<Part>): (r: Option<nat>)
    ensures r.None? <==> forall i | 0 <= i < |parts| :: parts[i].inlineData.None?
    ensures r.Some? ==> r.value < |parts| && parts[r.value].inlineData.Some?
    ensures r.Some? ==> forall i | 0 <= i < r.value :: parts[i].inlineData.None?
  {
    if |parts| == 0 then None
    else if parts[0].inlineData.Some? then Some(0)
    else match FirstInline(parts[1..])
      case None => None
      case Some(i) => Some(i + 1)
  }

  /** The loop over the parts of an image answer: the first inline data, as a PNG data URL
      whatever MIME type the part declares, or the error `missing`. */
  function FirstImage(parts: seq<Part>, missing: string): (r: Result<string, string>)
    ensures r.Failure? <==> forall i | 0 <= i < |parts| :: parts[i].inlineData.None?
    ensures r.Failure? ==> r.error == missing
    ensures r.Success? ==>
      r.value == DataUrl.Build(ImageMimeType, parts[FirstInline(parts).value].inlineData.value.data)
  {
    match FirstInline(parts)
    case None => Failure(missing)
    case Some(i) => Success(DataUrl.Build(ImageMimeType, parts[i].inlineData.value.data))
  }

  /** The result of `generateImage`. */
  function GeneratedImage(resp: Response): (r: Result<string, string>)
    ensures r.Failure? <==> forall i | 0 <= i < |PartsOf(resp)| :: PartsOf(resp)[i].inlineData.None?
    ensures r.Failure? ==> r.error == NoImage
    ensures r.Success? ==>
      r.value == DataUrl.Build(ImageMimeType, PartsOf(resp)[FirstInline(PartsOf(resp)).value].inlineData.value.data)
  {
    FirstImage(PartsOf(resp), NoImage)
  }

  /** The result of `editImage`. */
  function EditedImage(resp: Response): (r: Result<string, string>)
    ensures r.Failure? <==> forall i | 0 <= i < |PartsOf(resp)| :: PartsOf(resp)[i].inlineData.None?
    ensures r.Failure? ==> r.error == NoEditedImage
    ensures r.Success? ==>
      r.value == DataUrl.Build(ImageMimeType, PartsOf(resp)[FirstInline(PartsOf(resp)).value].inlineData.value.data)
  {
    FirstImage(PartsOf(resp), NoEditedImage)
  }

  /** An image answer taken apart again gives the PNG type and the part's data, when that
      data has no comma (base64 has none). */
  lemma FirstImageSplitsBack(parts: seq<Part>, missing: string)
    requires FirstInline(parts).Some?
    requires ',' !in parts[FirstInline(parts).value].inlineData.value.data
    ensures DataUrl.Payload(FirstImage(parts, missing).value)
      == Some(parts[FirstInline(parts).value].inlineData.value.data)
    ensures DataUrl.MimeType(FirstImage(parts, missing).value) == Some(ImageMimeType)
  {
    DataUrl.PartsOfBuilt(ImageMimeType, parts[FirstInline(parts).value].inlineData.value.data);
  }

  // ---------------------------------------------------------------------------
  // Veo
  // ---------------------------------------------------------------------------

  /** The paid-key state of the hosting page: no key selector at all (`window.aistudio`
      absent), or a selector with or without a selected key. */
  datatype KeySelector = NoSelector | KeySelected | NoKeySelected

  datatype AspectRatio = Landscape | Portrait {
    function Text(): string {
      match this
      case Landscape => "16:9"
      case Portrait => "9:16"
    }
  }

  const KeyRequired := "API_KEY_REQUIRED"
  const VeoModel := "veo-3.1-fast-generate-preview"

  datatype VeoConfig = VeoConfig(numberOfVideos: nat, resolution: string, aspectRatio: AspectRatio)
  datatype VeoImage = VeoImage(imageBytes: string, mimeType: string)
  datatype VeoArgs = VeoArgs(model: string, prompt: string, config: VeoConfig, image: Option<VeoImage>)

  /** The arguments of `generateVideos`, or the `API_KEY_REQUIRED` error thrown before any
      request is built. The image travels only when both its bytes and its type are
      non-empty strings; the aspect ratio defaults to 16:9. */
  function VeoRequest(key: KeySelector, prompt: string, imageBase64: Option<string>,
                      mimeType: Option<string>, aspect: Option<AspectRatio>): (r: Result<VeoArgs, string>)
    ensures r.Failure? <==> key == NoKeySelected
    ensures r.Failure? ==> r.error == KeyRequired
    ensures r.Success? ==> r.value.model == VeoModel && r.value.prompt == prompt
    ensures r.Success? ==> r.value.config.numberOfVideos == 1 && r.value.config.resolution == "720p"
    ensures r.Success? ==> r.value.config.aspectRatio == aspect.GetOr(Landscape)
    ensures r.Success? ==> (r.value.image.Some? <==> Truthy(imageBase64) && Truthy(mimeType))
    ensures r.Success? && r.value.image.Some? ==>
      Some(r.value.image.value.imageBytes) == imageBase64 && Some(r.value.image.value.mimeType) == mimeType
  {
    if key == NoKeySelected then Failure(KeyRequired)
    else
      var config := VeoConfig(1, "720p", aspect.GetOr(Landscape));
      var image := if Truthy(imageBase64) && Truthy(mimeType) then Some(VeoImage(imageBase64.value, mimeType.value)) else None;
      Success(VeoArgs(VeoModel, prompt, config, image))
  }
}
