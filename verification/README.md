# OmniTool core, modelled in Dafny

OmniTool is a single-page web application: a set of React screens (calculators, a live
voice conversation, URL and image utilities, AI media tools) that forward the user's input
to a generative-AI SDK or a REST endpoint and render the reply. This project models the
small, sequential pieces of logic inside those screens, each as pure functions over
immutable datatypes, and proves what they promise:

- **Calculators** (`Expenses`, `Gst`, `ExamMarks`): the expense list (add, delete, total,
  CSV export and reading the CSV back), the GST formulas in exclusive and inclusive mode,
  and the exam-marks parser and aggregator.
- **Live conversation** (`Transcript`, `LiveClient`, `Pcm`, `Base64`, `Bytes`): the
  transcript merge and the connect/disconnect toggle of the screen; the client's
  connection flags and playback cursor; float to signed 16-bit little-endian PCM and back;
  `btoa`/`atob` as base64 of section 4 of RFC 4648 with the WHATWG forgiving decoder.
- **Utilities** (`Links`, `UriComponent`, `ImageTools`): link normalisation, the TinyURL and
  QR-server request URLs with `encodeURIComponent` (UTF-8 per RFC 3629, then
  percent-escaping), and the encoder, quality and file name of the image resizer and
  compressor.
- **AI media** (`DataUrl`, `AiMedia`, `Gemini`): taking `data:<mime>;base64,<payload>` URLs
  apart (section 3 of RFC 2397), the prompt/image guards, the Veo status routing, and the
  post-processing of service responses (tools, default texts, grounding sources, the first
  inline image, the Veo request and its paid-key precheck).
- `Text`, `JsNumber` and `Wrappers` hold the JavaScript conventions the rest relies on:
  `split`/`join`/`trim` with their exact edge cases, decimal rendering of integers,
  `NaN`-absorbing addition and `reduce`, `undefined` as `None`, a thrown error as `Failure`.

JavaScript numbers are Dafny `real`s. `NaN` is modelled where the code can observe it: an
expense amount or an exam mark that `parseFloat` rejects, and a width or height that
`parseInt` leaves as `NaN`. `parseFloat` and `Number.prototype.toString` are function-typed
parameters. Clocks (`Date.now()`, the audio clock), the microphone permission, the paid-key
state and every service reply are parameters too.

Behaviour the proofs bring out, all as the code is written:

- The status lines of the live screen are logged with `isUser = false`, like the model's
  speech. So the model's first words are appended to "Connected! Start speaking."
  (`Transcript.ModelSpeechJoinsConnectedLine`). "Session ended." after a model entry
  breaks the "speakers alternate" property that the merge alone preserves
  (`Transcript.SessionEndedBreaksAlternation`).
- Expense ids are `Date.now()`. Two items added in the same millisecond share an id, and
  deleting one deletes both (`Expenses.DeleteRemovesEveryRecordWithTheId`).
- Names in the CSV are not quoted. A comma in a name makes the file unreadable as two
  columns (`Expenses.CommaInNameBreaksRoundTrip`).
- The inline item type of the expense screen (numeric id, no category) is the one
  modelled. The `ExpenseItem` declared in types.ts differs and is unused there.

## Model

| member | source | states |
|---|---|---|
| Expenses.Add | views/Calculators.tsx:46-51 | with either field empty nothing changes; otherwise exactly one item is appended at the end, with id `now`, the name and the parsed amount, earlier items are kept, and both fields are cleared |
| Expenses.Delete | views/Calculators.tsx:92 | the result holds exactly the items whose id differs from the target, is no longer than the list, and is the list itself when no item has the id |
| Expenses.DeleteAppend | views/Calculators.tsx:92 | deleting from a concatenation deletes from each part, so the kept items stay in their original order |
| Expenses.DeleteUndoesAdd | views/Calculators.tsx:48-92 | deleting the id of a freshly added item whose id was unused gives back the list before the add |
| Expenses.DeleteRemovesEveryRecordWithTheId | views/Calculators.tsx:48-92 | every item carrying the deleted id is gone, so two items added in the same millisecond disappear together |
| Expenses.TotalIsSum | views/Calculators.tsx:64 | the `reduce` total is the sum of the amounts when all are numbers and NaN otherwise; it is 0 for the empty list |
| Expenses.TotalFromIsSum | views/Calculators.tsx:64 | the left fold from any starting value equals that value plus the reference sum, NaN absorbing |
| Expenses.TotalAfterAdd | views/Calculators.tsx:46-64 | after an add, the total is the previous total plus the new amount |
| Expenses.TotalFrom | views/Calculators.tsx:64 | the fold from any start is a number exactly when the start and every amount are numbers |
| Expenses.Total | views/Calculators.tsx:64 | the total is 0 for no items and a number exactly when every amount is one |
| Expenses.Rows | views/Calculators.tsx:55 | one CSV row per item |
| Expenses.Csv | views/Calculators.tsx:54-56 | the first line of the file is the header and the remaining lines are those of the joined rows |
| Expenses.CsvRoundTrip | views/Calculators.tsx:53-55 | reading the exported text back (header line, then `name,amount` lines joined by newlines, no trailing newline) gives every item's name and amount text in list order, provided no name or amount has a comma or newline |
| Expenses.ReadRowsOfRows | views/Calculators.tsx:55 | the rows read back field by field |
| Expenses.CommaInNameBreaksRoundTrip | views/Calculators.tsx:55 | a comma in any name makes its row three fields, so the file no longer reads back |
| Gst.Compute | views/Calculators.tsx:127-132 | exclusive: net is the amount, gst is amount·rate/100, total is their sum; inclusive: total is the amount, net·(100+rate) = amount·100, gst = net·rate/100; in both, net + gst = total |
| Gst.InclusiveInvertsExclusive | views/Calculators.tsx:127-132 | treating an exclusive total as an inclusive amount gives back the same breakdown |
| Gst.ExclusiveInvertsInclusive | views/Calculators.tsx:127-132 | adding GST to an inclusive net gives back the inclusive breakdown |
| ExamMarks.FieldValueIgnoresPadding | views/Calculators.tsx:174 | a space before or after a mark does not change the number it reads as |
| ExamMarks.Finites | views/Calculators.tsx:174 | the NaN filter keeps no more values than it is given |
| ExamMarks.FinitesAppend | views/Calculators.tsx:174 | the filter distributes over concatenation |
| ExamMarks.FinitesAllFinite | views/Calculators.tsx:174 | with no NaN the filter keeps every value in place |
| ExamMarks.FinitesNoneFinite | views/Calculators.tsx:174 | with only NaN the filter keeps nothing |
| ExamMarks.Numbers | views/Calculators.tsx:174 | the numbers kept are never more than the fields |
| ExamMarks.NumbersAppend | views/Calculators.tsx:174 | the filter works field by field, in order |
| ExamMarks.NumbersAllNumeric | views/Calculators.tsx:174 | when every trimmed field parses, each field gives its number in place |
| ExamMarks.NumbersNoneNumeric | views/Calculators.tsx:174 | when no field parses, there are no marks |
| ExamMarks.Marks | views/Calculators.tsx:174 | at most one mark per comma-separated field, and a text without commas is one field |
| ExamMarks.Calculate | views/Calculators.tsx:173-178 | count is the number of comma-separated fields that parse, at most the number of fields; count 0 gives zero average and total; otherwise total is the sum of the marks and the average is total divided by count |
| ExamMarks.AverageTimesCount | views/Calculators.tsx:175-178 | for every input, the reported average times the reported count equals the reported total |
| ExamMarks.MarksOfJoinedText | views/Calculators.tsx:174-176 | the marks of two comma-joined lists are those of each list, and their total is the sum of both |
| JsNumber.Plus | views/Calculators.tsx:64 | JavaScript addition: finite exactly when both operands are, then the real sum |
| JsNumber.ReduceSumIsSum | views/Calculators.tsx:176 | `reduce((a, b) => a + b, acc)` equals `acc` plus the reference sum |
| JsNumber.SumAppend | views/Calculators.tsx:176 | the sum of a concatenation is the sum of the sums |
| Text.Split | views/Calculators.tsx:174 | `split` with one separator: at least one piece, and no piece holds the separator |
| Text.SplitCount | views/Calculators.tsx:174 | there is one more piece than separators |
| Text.SplitJoin | views/Calculators.tsx:55 | splitting undoes joining when no piece holds the separator |
| Text.JoinSplit | views/Calculators.tsx:55 | joining undoes splitting, for every string |
| Text.SplitAtFirst | views/AiMedia.tsx:110-111 | the first piece runs up to the first separator and the rest are the pieces after it |
| Text.Trim | views/Calculators.tsx:174 | `trim` never lengthens, leaves no whitespace at either end, and keeps a string whose ends are not whitespace |
| Text.TrimIgnoresPadding | views/Calculators.tsx:174 | one space before or after a string does not change its trimmed form |
| Text.JoinCount | views/Calculators.tsx:55 | joining separator-free pieces puts exactly one separator between each adjacent pair |
| Text.TrimKeepsInfix | views/Calculators.tsx:174 | `trim` keeps a contiguous infix and removes only whitespace, ending on non-whitespace |
| Text.ShowIntRoundTrip | views/Utilities.tsx:293 | the decimal rendering of an integer reads back to the integer |
| Transcript.Merge | views/LiveConversation.tsx:34-44 | a fragment of the last entry's speaker is appended to that entry's text; otherwise, including on an empty log, it becomes a new last entry; the log grows by at most one and every entry before the last is unchanged |
| Transcript.MergeAppendsText | views/LiveConversation.tsx:41-43 | the concatenated text of all entries grows by exactly the fragment, at the end |
| Transcript.MergePreservesAlternation | views/LiveConversation.tsx:37-43 | if no two adjacent entries share a speaker before the merge, none do after |
| Transcript.MergeAll | views/LiveConversation.tsx:33-44 | a run of fragments grows the log by at most one entry each |
| Transcript.MergeAllKeepsOrder | views/LiveConversation.tsx:33-44 | after a run of fragments the log text is the old text followed by the fragments in arrival order, and alternation is kept |
| Transcript.Toggle | views/LiveConversation.tsx:23-53 | when active: disconnects, becomes inactive and appends "Session ended."; when inactive: appends "Connecting to Gemini Live...", then "Connected! Start speaking." and becomes active on success, or "Connection failed." and stays inactive |
| Transcript.OnFragment | views/LiveConversation.tsx:33-44 | a fragment changes only the log, and its text is appended in order |
| Transcript.ModelSpeechJoinsConnectedLine | views/LiveConversation.tsx:38-47 | the model's first words after connecting are appended to the status line "Connected! Start speaking." |
| Transcript.SessionEndedBreaksAlternation | views/LiveConversation.tsx:27 | ending a session after a model entry leaves two adjacent non-user entries |
| Pcm.Clamp | services/live.ts:6 | the sample is clamped into [-1, 1], unchanged inside it |
| Pcm.Truncate | services/live.ts:7 | conversion to an integer truncates toward zero |
| Pcm.ToInt16 | services/live.ts:7 | `setInt16` keeps the value modulo 2^16, unchanged when in range |
| Pcm.Quantize | services/live.ts:6-7 | the stored value is within [-32768, 32767]: 32767 at 1 and above, -32768 at -1 and below, otherwise the truncation of the sample times 32767 (non-negative) or 32768 (negative) |
| Pcm.QuantizeMonotone | services/live.ts:6-7 | a larger sample never gives a smaller value |
| Pcm.Dequantize | services/live.ts:130-132 | a stored sample divided by 32768 lies in [-1, 1) and keeps its sign |
| Pcm.QuantizationError | services/live.ts:6-132 | a sample sent and played back differs from the clamped original by less than 2/32768 |
| Pcm.BytePairRoundTrip | services/live.ts:126 | the little-endian low and high bytes of a sample read back to the sample |
| Pcm.EncodeSamples | services/live.ts:100-102 | the buffer holds exactly two bytes per sample |
| Pcm.FloatTo16BitPcm | services/live.ts:4-9 | sample i is written little-endian at offset+2i and offset+2i+1, and no other byte of the view changes |
| Pcm.CaptureFrame | services/live.ts:100-102 | a microphone frame becomes exactly the encoded samples |
| Pcm.DecodeSamples | services/live.ts:126 | an Int16 view exists exactly for an even byte count (otherwise RangeError) and has half as many samples |
| Pcm.DecodeEncodeSamples | services/live.ts:126 | decoding the bytes of encoded samples gives back the quantised samples |
| Pcm.ChannelData | services/live.ts:130-132 | every played sample lies in [-1, 1) |
| Bytes.CharCodesRoundTrip | services/live.ts:104 | `String.fromCharCode` then `charCodeAt` gives back the bytes |
| Base64.SextetCharRoundTrip | services/live.ts:12 | every 6-bit value has an alphabet character that reads back to it |
| Base64.EncodeSextets | services/live.ts:104 | three bytes become four characters, a final partial group two or three |
| Base64.DecodeEncodeSextets | services/live.ts:12 | the 6-bit groups of a byte string decode back to the bytes |
| Base64.Btoa | services/live.ts:104 | `btoa` succeeds exactly on binary strings, with output length 4·⌈n/3⌉ |
| Base64.BtoaIsBase64Text | services/live.ts:104 | `btoa` writes only alphabet characters and '=' |
| Base64.Atob | services/live.ts:12 | `atob` produces a binary string when it succeeds |
| Base64.AtobBtoa | services/live.ts:12 | `atob(btoa(s))` is `s` for every binary string |
| Base64.Base64ToUint8Array | services/live.ts:11-18 | it fails exactly when `atob` fails, and otherwise returns one byte per decoded character with byte i the code of character i |
| Base64.BytesSurviveTransport | services/live.ts:11-18 | bytes sent as base64 arrive unchanged |
| LiveClient.Connect | services/live.ts:33-84 | a connected client is left alone; otherwise a playback context exists afterwards, the client is not yet connected, and the session exists exactly when the microphone was granted |
| LiveClient.OnOpen | services/live.ts:46-49 | the open callback sets the connected flag and nothing else |
| LiveClient.Disconnect | services/live.ts:145-158 | afterwards the client is not connected, has no session and no context, and the cursor is 0 |
| LiveClient.DisconnectIdempotent | services/live.ts:145-158 | disconnecting twice equals disconnecting once and equals a new client; close and error callbacks both disconnect |
| LiveClient.ConnectThenOpen | services/live.ts:33-49 | a new client becomes connected only through the open callback, and a connected one ignores `connect` |
| LiveClient.OutgoingMedia | services/live.ts:96-113 | a frame is sent exactly when a session exists, typed `audio/pcm;rate=16000`, and its data decodes to the frame's PCM bytes |
| LiveClient.PayloadSamples | services/live.ts:123-126 | the payload yields samples exactly when `atob` accepts it and gives an even number of bytes, and then half as many samples as bytes |
| LiveClient.OnClose | services/live.ts:65-68 | the close callback leaves a client equal to a new one |
| LiveClient.OnError | services/live.ts:69-72 | the error callback leaves a client equal to a new one |
| LiveClient.Schedule | services/live.ts:127-142 | a chunk starts at the later of now and the cursor, and lasts frames/24000 seconds |
| LiveClient.PlayAudio | services/live.ts:120-143 | a chunk is played exactly when there is a context and the payload decodes to an even, non-zero number of bytes (`createBuffer` rejects length 0); it is played from max(now, cursor), its samples are the payload's Int16 values over 32768, and the cursor moves to its end; otherwise nothing changes |
| LiveClient.BlankPayloadPlaysNothing | services/live.ts:123-127 | a whitespace-only payload decodes to no samples, so the message plays nothing and the cursor stays put |
| LiveClient.ConsecutiveChunksDoNotOverlap | services/live.ts:138-142 | a second chunk never starts before the first one ends |
| LiveClient.CapturedFramePlaysBack | services/live.ts:120-132 | a captured frame played as sent comes out as its quantised samples over 32768 |
| LiveClient.ScheduleAll | services/live.ts:138-142 | a run of chunks gets one slot each |
| LiveClient.ScheduleAllIsGapless | services/live.ts:138-142 | chunks play in arrival order, none before it arrives, for exactly its duration, none overlapping the previous one; the first starts at the cursor or at its arrival, a chunk arriving in time starts exactly where the previous one ends, and a late one exactly at its arrival |
| LiveClient.Transcriptions | services/live.ts:58-63 | exactly one fragment per non-empty transcription: the model's as non-user, then the user's as user; empty or absent text is skipped |
| LiveClient.OnMessage | services/live.ts:50-64 | the callback reports the transcriptions; with audio it leaves the client exactly as `playAudio` does (nothing without a playback context), without audio it leaves the client alone, and the cursor only moves forward |
| UriComponent.Utf8RoundTrip | views/Utilities.tsx:105 | UTF-8 decoding gives back every string encoded |
| UriComponent.Encode | views/Utilities.tsx:105 | `encodeURIComponent` output has only unreserved characters and '%', and leaves an all-unreserved string as it is |
| UriComponent.DecodeEncode | views/Utilities.tsx:105 | percent-decoding then UTF-8 decoding the output gives back the text |
| Links.Normalize | views/Utilities.tsx:96-99 | the result always matches `^https?://` ignoring case, a matching URL is unchanged, and the original is a suffix of the result |
| Links.SchemeTestShape | views/Utilities.tsx:97 | the scheme test accepts exactly `h`, `t`, `t`, `p` in either case, an optional `s` in either case, then `://` |
| Links.NormalizeIdempotent | views/Utilities.tsx:96-99 | normalising twice is normalising once |
| Links.NormalizeAddsHttps | views/Utilities.tsx:97-98 | any other URL gets exactly `https://` in front |
| Links.ShortenRequest | views/Utilities.tsx:93-105 | nothing is requested for an empty URL; otherwise the TinyURL API URL with the `url` parameter |
| Links.QrRequest | views/Utilities.tsx:47-73 | the QR image is requested exactly for non-empty text, at the 200x200 endpoint with the `data` parameter |
| Links.Shorten | views/Utilities.tsx:93-117 | an empty URL changes nothing; otherwise the copied mark is cleared and a successful reply becomes the short link, a failed one leaves it |
| Links.QrRequestCarriesText | views/Utilities.tsx:47 | the QR server reads size 200x200 and, after decoding, exactly the user's text |
| Links.ShortenRequestCarriesUrl | views/Utilities.tsx:97-105 | TinyURL reads, after decoding, exactly the normalised URL |
| ImageTools.ProcessImage | views/Utilities.tsx:274-303 | without an image nothing happens; compression is JPEG at quality/100 in (0, 1]; resizing is PNG; the file name reads back as `compressed_<ts>.jpg` or `resized_<w>x<h>_<ts>.png` |
| ImageTools.FileName | views/Utilities.tsx:290-293 | a compressed file is named `compressed_…jpg`, a resized one `resized_…png` |
| ImageTools.FileNameRoundTrip | views/Utilities.tsx:290-293 | every file name written reads back to its kind, width, height and timestamp, NaN sizes included |
| DataUrl.Payload | views/AiMedia.tsx:110 | the payload exists exactly when the URL has a comma, and holds no comma |
| DataUrl.MimeType | views/AiMedia.tsx:111 | the MIME type exists exactly when a colon precedes the first semicolon |
| DataUrl.PayloadBetweenCommas | views/AiMedia.tsx:110 | the payload is the text between the first comma and the next one or the end |
| DataUrl.MimeTypeBetweenColonAndSemicolon | views/AiMedia.tsx:111 | the MIME type is the text after the first colon, up to the next colon or the first semicolon |
| DataUrl.PartsOfBuilt | views/AiMedia.tsx:110-111 | `data:<m>;base64,<b>` splits back into exactly `m` and `b` when `m` has no ':', ';' or ',' and `b` no ',' |
| DataUrl.PartsOfEncoded | views/AiMedia.tsx:110-111 | a data URL holding `btoa` output always splits back into its type and payload |
| AiMedia.ImageRequest | views/AiMedia.tsx:42-46 | an image is requested exactly for a non-empty prompt |
| AiMedia.EditRequest | views/AiMedia.tsx:105-112 | no call without an image or a prompt; otherwise the prompt is passed and the payload is defined exactly when the image URL has a comma |
| AiMedia.EditRequestOfUpload | views/AiMedia.tsx:100-112 | an uploaded image reaches `editImage` as exactly its base64 text and MIME type |
| AiMedia.VeoStart | views/AiMedia.tsx:184-204 | the key selector is opened exactly when no paid key is selected, and then the user is asked to retry and no call is made; an empty prompt does nothing; otherwise the screen shows "Initializing Veo..." and the call carries image parts exactly when an image is loaded |
| AiMedia.ErrorStatus | views/AiMedia.tsx:208-213 | `API_KEY_REQUIRED` gives "Please select a paid API key to use Veo.", any other message m gives "Generation failed. " + m |
| AiMedia.ErrorStatusRoundTrip | views/AiMedia.tsx:208-213 | the error message can be read back from the status line |
| AiMedia.VeoFinish | views/AiMedia.tsx:205-216 | loading stops; a video URL is shown with an empty status; an error keeps the video, its message can be read back from the status, and only a missing key reopens the selector |
| AiMedia.VeoRequestOf | views/AiMedia.tsx:198-204 | the service's own key check fails exactly without a selected key; otherwise the request carries the prompt, a 16:9 aspect ratio, and an image exactly when both cut-out parts are non-empty |
| AiMedia.VeoImageOfUpload | views/AiMedia.tsx:198-202 | an uploaded image reaches the Veo request as its base64 text and MIME type |
| AiMedia.VeoWithoutImage | views/AiMedia.tsx:203-204 | without an image the Veo request has none |
| AiMedia.LostKeyReported | views/AiMedia.tsx:208-210 | a key lost before the service's own check surfaces as the paid-key status and reopens the selector |
| Gemini.Tools | services/gemini.ts:9 | Google Search is among the tools exactly when requested, and there is at most one tool |
| Gemini.OrDefault | services/gemini.ts:20 | the answer text when present and non-empty, the fallback otherwise (JavaScript `or` on strings) |
| Gemini.SearchText | services/gemini.ts:20 | the search answer's text is never empty: the answer's own text whenever that is non-empty, "No response generated." otherwise |
| Gemini.SpecializedText | services/gemini.ts:51 | the specialised answer is empty exactly when the response had no text |
| Gemini.CvJsonText | services/gemini.ts:104 | the CV text handed to `JSON.parse` is never empty: the answer's own text whenever that is non-empty, "{}" otherwise |
| Gemini.ChunksOf | services/gemini.ts:21 | the first candidate's grounding chunks; no candidates or no grounding metadata give no chunks |
| Gemini.Sources | services/gemini.ts:22-27 | never more sources than chunks |
| Gemini.SourcesAppend | services/gemini.ts:22-27 | the sources of concatenated chunks are each part's sources, in order |
| Gemini.SourcesOfWebChunks | services/gemini.ts:22-27 | chunks with a web entry give one source each, position for position, with its uri and title |
| Gemini.SourcesOfOtherChunks | services/gemini.ts:23 | chunks without a web entry give no source |
| Gemini.SourcesMembership | services/gemini.ts:22-27 | a source is listed exactly when some chunk carries the web entry with its uri and title |
| Gemini.SearchAnswer | services/gemini.ts:20-29 | the text is the answer's own when non-empty and "No response generated." otherwise; a source is listed exactly when a chunk of the first candidate carries that web entry, at most one per chunk, none without candidates |
| Gemini.PartsOf | services/gemini.ts:124 | the first candidate's parts, or none when there is no candidate or no content |
| Gemini.FirstInline | services/gemini.ts:124-125 | the first part with inline data, or none when no part has it |
| Gemini.FirstImage | services/gemini.ts:124-129 | a failure exactly when no part has inline data; otherwise the first such part's data as a PNG data URL |
| Gemini.GeneratedImage | services/gemini.ts:124-129 | fails, with "No image generated", exactly when no part of the first candidate has inline data; otherwise the first such part's data as a PNG data URL |
| Gemini.EditedImage | services/gemini.ts:155-160 | fails, with "No edited image returned", exactly when no part of the first candidate has inline data; otherwise the first such part's data as a PNG data URL |
| Gemini.FirstImageSplitsBack | services/gemini.ts:126 | an image answer splits back into `image/png` and the part's data |
| Gemini.VeoRequest | services/gemini.ts:168-200 | `API_KEY_REQUIRED` exactly when a key selector has no key; otherwise model `veo-3.1-fast-generate-preview`, one video, 720p, aspect ratio 16:9 unless given, and an image exactly when both its bytes and type are non-empty |

## Left out

- Network and SDK calls (`generateContent`, `generateVideos`, `ai.live.connect`, the TinyURL and QR fetches): their results are parameters.
- The Veo polling loop and the video download are left out: nothing after the first `generateVideos` call is modelled.
- Browser I/O: Web Audio graph wiring, microphone capture, FileReader, canvas drawing and `toDataURL` output, clipboard, timers, alerts, downloads.
- Concurrency of promises and session callbacks: each callback is one sequential state transition, and `await` points split an operation into its halves (`AiMedia.VeoStart`, `AiMedia.VeoFinish`).
- IEEE-754 arithmetic: numbers are exact reals. Rounding, infinities and `toFixed` display are not modelled, and `parseFloat` and `Number.prototype.toString` are parameters.
- Gst.Compute: the amount is a real, so the NaN an emptied amount field produces is not modelled; the inclusive formulas are stated over exact reals.
- Pcm.Quantize: samples are reals rather than 32-bit floats; the clamp, truncation and Int16 wrap are exact.
- Pcm.FloatTo16BitPcm: requires the view to hold the samples; the DataView RangeError for a short view is not modelled, since the only caller allocates exactly two bytes per sample.
- Pcm.DecodeSamples: assumes a little-endian platform for the Int16Array view.
- UriComponent.DecodeEncode: the decoder is a reference for what `encodeURIComponent` writes. It does not model every validation `decodeURIComponent` performs, and lone surrogates cannot arise because Dafny characters are Unicode scalar values.
- ImageTools.ProcessImage: the canvas 2D context is assumed to exist; the drawn image itself is not modelled.
- LiveClient.Connect: the input audio context and processor of `setupAudioInput` are only reflected as the session flag.
- views/AiText.tsx, App.tsx, views/Dashboard.tsx, views/CameraTool.tsx, the PDF tools and the image comparison slider: rendering, prompt templates, navigation and device capture, with no logic of their own to verify.
- types.ts: declarations only.
