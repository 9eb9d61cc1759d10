/** The live-session client: the connection flags, the audio sent for each microphone frame,
    the decoding and gapless scheduling of the audio the model sends back, and the
    transcription fragments each server message carries. The session, the microphone and
    the audio graph are outside the model; their outcomes arrive as parameters. */
module LiveClient {
  import opened Wrappers
  import opened Bytes
  import opened Base64
  import opened Pcm

  /** Sample rate of the playback context and of the buffers it plays. */
  const PlaybackRate: real := 24000.0

  /** MIME type of the audio sent to the session: raw 16-bit PCM captured at 16 kHz. */
  const CaptureMimeType: string := "audio/pcm;rate=16000"

  /** The state of a `LiveClient` the model tracks: whether the session reported itself open,
      whether a playback context and a session exist, and the playback cursor. */
  datatype Client = Client(isConnected: bool, hasAudioContext: bool, hasSession: bool, nextStartTime: real)

  /** A freshly constructed client. */
  function New(): Client
  {
    Client(false, false, false, 0.0)
  }

  // ---------------------------------------------------------------------------
  // connection lifecycle
  // ---------------------------------------------------------------------------

  /** The client after `connect`, and whether the returned promise resolved. */
  datatype ConnectOutcome = ConnectOutcome(client: Client, ok: bool)

  /** `connect(onMessage)`. Nothing happens on a connected client. Otherwise a playback
      context is created, then the microphone is requested (`micGranted` is the answer);
      a refusal rejects the promise and leaves the new context in place, and a grant opens
      the session. `isConnected` is only set later, by the session's open callback. */
  function Connect(c: Client, micGranted: bool): (r: ConnectOutcome)
    ensures c.isConnected ==> r == ConnectOutcome(c, true)
    ensures !c.isConnected ==>
      && r.ok == micGranted
      && !r.client.isConnected && r.client.hasAudioContext
      && r.client.hasSession == (micGranted || c.hasSession)
      && r.client.nextStartTime == c.nextStartTime
  {
    if c.isConnected then ConnectOutcome(c, true)
    else
      var withContext := c.(hasAudioContext := true);
      if !micGranted then ConnectOutcome(withContext, false)
      else ConnectOutcome(withContext.(hasSession := true), true)
  }

  /** The session's `onopen` callback. */
  function OnOpen(c: Client): (d: Client)
    ensures d.isConnected
    ensures d.(isConnected := c.isConnected) == c
  {
    c.(isConnected := true)
  }

  /** `disconnect()`: not connected, no session, no context, cursor back at 0. */
  function Disconnect(c: Client): (d: Client)
    ensures !d.isConnected && !d.hasSession && !d.hasAudioContext && d.nextStartTime == 0.0
  {
    c.(isConnected := false, hasSession := false, hasAudioContext := false, nextStartTime := 0.0)
  }

  /** The session's `onclose` and `onerror` callbacks both end in `disconnect()`, which
      leaves a client indistinguishable from a new one. */
  function OnClose(c: Client): (r: Client)
    ensures r == New()
  {
    Disconnect(c.(isConnected := false))
  }

  function OnError(c: Client): (r: Client)
    ensures r == New()
  {
    Disconnect(c)
  }

  /** Disconnecting twice is the same as disconnecting once, and a disconnected client is
      indistinguishable from a new one. */
  lemma DisconnectIdempotent(c: Client)
    ensures Disconnect(Disconnect(c)) == Disconnect(c)
    ensures Disconnect(c) == New()
    ensures OnClose(c) == Disconnect(c) && OnError(c) == Disconnect(c)
  {
  }

  /** A connected client ignores `connect`; a new client needs the session's open callback
      before it counts as connected. */
  lemma ConnectThenOpen(micGranted: bool)
    ensures !Connect(New(), micGranted).client.isConnected
    ensures micGranted ==> OnOpen(Connect(New(), micGranted).client).isConnected
    ensures Connect(OnOpen(New()), micGranted).client == OnOpen(New())
  {
  }

  // ---------------------------------------------------------------------------
  // outgoing audio
  // ---------------------------------------------------------------------------

  datatype Media = Media(mimeType: string, data: string)

  /** The media blob sent for one microphone frame: the frame's 16-bit PCM bytes, as a binary
      string, base64-encoded. It is sent only once a session exists. */
  function OutgoingMedia(c: Client, frame: seq<real>): (r: Option<Media>)
    ensures r.Some? <==> c.hasSession
    ensures r.Some? ==> r.value.mimeType == CaptureMimeType
    ensures r.Some? ==> Atob(r.value.data) == Some(FromCharCodes(EncodeSamples(frame)))
  {
    if !c.hasSession then None
    else
      var bytes := EncodeSamples(frame);
      BytesSurviveTransport(bytes);
      Some(Media(CaptureMimeType, Btoa(FromCharCodes(bytes)).value))
  }

  // ---------------------------------------------------------------------------
  // incoming audio
  // ---------------------------------------------------------------------------

  /** The interval of the playback clock one chunk occupies. */
  datatype Slot = Slot(start: real, end: real)

  /** `startTime = Math.max(now, nextStartTime)`; the chunk lasts `frames / 24000` seconds
      and the cursor moves to its end. */
  function Schedule(nextStartTime: real, now: real, frames: nat): (s: Slot)
    ensures s.start >= now && s.start >= nextStartTime
    ensures s.start == now || s.start == nextStartTime
    ensures s.end - s.start == frames as real / PlaybackRate
  {
    var start := if now > nextStartTime then now else nextStartTime;
    Slot(start, start + frames as real / PlaybackRate)
  }

  datatype Played = Played(slot: Slot, samples: seq<real>)

  /** The client after a `playAudio` call, and what it scheduled, if anything. */
  datatype Playback = Playback(client: Client, played: Option<Played>)

  /** The 16-bit samples carried by a base64 payload, as `playAudio` reads them: `atob`,
      one byte per character, then the `Int16Array` view. Fails where `atob` or the view
      would throw. */
  function PayloadSamples(base64: string): (r: Option<seq<int16>>)
    ensures r.Some? <==> Atob(base64).Some? && |Atob(base64).value| % 2 == 0
    ensures r.Some? ==> |r.value| == |Atob(base64).value| / 2
  {
    match Atob(base64)
    case None => None
    case Some(binary) => DecodeSamples(CharCodes(binary)).ToOption()
  }

  /** `playAudio(base64Data)` at playback-clock time `now`. Without a playback context, or
      when the payload does not decode, or when it holds no samples (`createBuffer` rejects a
      zero length), nothing is scheduled and the client is unchanged; otherwise the samples
      are scheduled right after the previous chunk (or now, if that has already ended) and
      the cursor moves to the end of the new chunk. */
  function PlayAudio(c: Client, base64: string, now: real): (r: Playback)
    ensures r.played.None? ==> r.client == c
    ensures r.played.Some? <==>
      c.hasAudioContext && PayloadSamples(base64).Some? && |PayloadSamples(base64).value| > 0
    ensures r.played.Some? ==> |r.played.value.samples| > 0
    ensures r.played.Some? ==>
      var p := r.played.value;
      && p.slot.start >= now && p.slot.start >= c.nextStartTime
      && (p.slot.start == now || p.slot.start == c.nextStartTime)
      && p.slot.end - p.slot.start == |p.samples| as real / PlaybackRate
      && r.client == c.(nextStartTime := p.slot.end)
      && p.samples == ChannelData(PayloadSamples(base64).value)
  {
    if !c.hasAudioContext then Playback(c, None)
    else match PayloadSamples(base64)
      case None => Playback(c, None)
      case Some(pcm) =>
        if |pcm| == 0 then Playback(c, None)
        else
        var slot := Schedule(c.nextStartTime, now, |pcm|);
        Playback(c.(nextStartTime := slot.end), Some(Played(slot, ChannelData(pcm))))
  }

  /** A payload that is only whitespace decodes to no bytes; `createBuffer` throws for the
      empty buffer, so the message plays nothing and leaves the cursor where it was. */
  lemma BlankPayloadPlaysNothing(c: Client, now: real)
    ensures PayloadSamples(" ") == Some([])
    ensures PlayAudio(c, " ", now) == Playback(c, None)
    ensures OnMessage(c, Message(Some(" "), None, None), now) == (c, [])
  {
  }

  /** Two chunks played one after the other never overlap, whatever the clock says. */
  lemma ConsecutiveChunksDoNotOverlap(c: Client, first: string, t1: real, second: string, t2: real)
    requires PlayAudio(c, first, t1).played.Some?
    ensures var r1 := PlayAudio(c, first, t1);
      var r2 := PlayAudio(r1.client, second, t2);
      r2.played.Some? ==> r2.played.value.slot.start >= r1.played.value.slot.end
  {
  }

  /** A captured frame played back as it was sent comes out as the same number of samples,
      each within one 16-bit step of the clamped original. */
  lemma CapturedFramePlaysBack(frame: seq<real>)
    ensures PayloadSamples(Btoa(FromCharCodes(EncodeSamples(frame))).value) == Some(QuantizeAll(frame))
    ensures forall i | 0 <= i < |frame| ::
      Clamp(frame[i]) - 2.0 / 32768.0 < ChannelData(QuantizeAll(frame))[i] < Clamp(frame[i]) + 1.0 / 32768.0
  {
    var bytes := EncodeSamples(frame);
    BytesSurviveTransport(bytes);
    DecodeEncodeSamples(frame);
    forall i | 0 <= i < |frame|
      ensures Clamp(frame[i]) - 2.0 / 32768.0 < ChannelData(QuantizeAll(frame))[i] < Clamp(frame[i]) + 1.0 / 32768.0
    {
      QuantizationError(frame[i]);
    }
  }

  /** A chunk to play: the playback-clock time it arrives and its sample count. */
  datatype Chunk = Chunk(arrival: real, frames: nat)

  /** The slots a run of chunks gets, scheduled one after another from `cursor`. */
  function ScheduleAll(cursor: real, chunks: seq<Chunk>): (slots: seq<Slot>)
    ensures |slots| == |chunks|
    decreases |chunks|
  {
    if |chunks| == 0 then []
    else
      var s := Schedule(cursor, chunks[0].arrival, chunks[0].frames);
      [s] + ScheduleAll(s.end, chunks[1..])
  }

  /** Scheduling a run of chunks plays them in arrival order, each one no earlier than it
      arrived, for exactly its duration, never overlapping the previous one, and without a
      gap whenever it arrived before the previous one ended. */
  lemma {:induction false} ScheduleAllIsGapless(cursor: real, chunks: seq<Chunk>)
    ensures var slots := ScheduleAll(cursor, chunks);
      && (forall i | 0 <= i < |slots| ::
            slots[i].start >= chunks[i].arrival
            && slots[i].end - slots[i].start == chunks[i].frames as real / PlaybackRate)
      && (|slots| > 0 ==> slots[0].start >= cursor)
      && (|slots| > 0 ==> slots[0].start == cursor || slots[0].start == chunks[0].arrival)
      && (forall i | 0 <= i < |slots| - 1 :: slots[i].end <= slots[i + 1].start)
      && (forall i | 0 <= i < |slots| - 1 ::
            chunks[i + 1].arrival <= slots[i].end ==> slots[i + 1].start == slots[i].end)
      && (forall i | 0 <= i < |slots| - 1 ::
            chunks[i + 1].arrival > slots[i].end ==> slots[i + 1].start == chunks[i + 1].arrival)
    decreases |chunks|
  {
    if |chunks| > 0 {
      var s := Schedule(cursor, chunks[0].arrival, chunks[0].frames);
      var rest := ScheduleAll(s.end, chunks[1..]);
      ScheduleAllIsGapless(s.end, chunks[1..]);
      var slots := ScheduleAll(cursor, chunks);
      assert slots == [s] + rest;
      forall i | 1 <= i < |slots| ensures slots[i] == rest[i - 1] && chunks[i] == chunks[1..][i - 1] {
      }
    }
  }

  // ---------------------------------------------------------------------------
  // server messages
  // ---------------------------------------------------------------------------

  /** The parts of a server message the client reads: the first part's inline audio data,
      the model's output transcription and the user's input transcription. */
  datatype Message = Message(audio: Option<string>, outputText: Option<string>, inputText: Option<string>)

  /** A piece of transcript and whether the user (rather than the model) said it. */
  datatype Fragment = Fragment(text: string, isUser: bool)

  /** The fragments `onmessage` hands to the transcript, in order: the model's words, then
      the user's; an absent or empty transcription is skipped. */
  function Transcriptions(m: Message): (r: seq<Fragment>)
    ensures |r| == (if Truthy(m.outputText) then 1 else 0) + (if Truthy(m.inputText) then 1 else 0)
    ensures (Fragment(m.outputText.GetOr(""), false) in r) <==> Truthy(m.outputText)
    ensures (Fragment(m.inputText.GetOr(""), true) in r) <==> Truthy(m.inputText)
    ensures forall i | 0 <= i < |r| :: r[i].text != ""
    ensures |r| == 2 ==> !r[0].isUser && r[1].isUser
  {
    (if Truthy(m.outputText) then [Fragment(m.outputText.value, false)] else [])
    + (if Truthy(m.inputText) then [Fragment(m.inputText.value, true)] else [])
  }

  /** The session's `onmessage` callback: plays the audio, if any and if a playback context
      exists, then reports the transcriptions. `now` is the playback clock. */
  function OnMessage(c: Client, m: Message, now: real): (r: (Client, seq<Fragment>))
    ensures r.1 == Transcriptions(m)
    ensures !Truthy(m.audio) ==> r.0 == c
    ensures Truthy(m.audio) ==> r.0 == PlayAudio(c, m.audio.value, now).client
    ensures r.0.(nextStartTime := c.nextStartTime) == c
    ensures r.0.nextStartTime >= c.nextStartTime
  {
    var c' := if Truthy(m.audio) && c.hasAudioContext then PlayAudio(c, m.audio.value, now).client else c;
    (c', Transcriptions(m))
  }
}
