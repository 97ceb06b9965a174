/** The conversation state of the chat panel (components/ChatInterface.tsx):
    the append-only message list, the input line, the pending attachment, the
    busy flags, the voice mode and reasoning tier, and the buffered audio of
    a dictation. Each React state update becomes an assignment to a field;
    a handler that awaits is split at its await into the step before and
    the step after. */
module ChatSession {
  import opened Types
  import opened JsString
  import opened GeminiService
  import opened MediaCodec
  import opened VoiceToggle

  const Greeting := "SHROVATE System initialized. Neural link established. How may I assist you, Operator?"
  const ConnectionError := "ERROR: Connection to Gemini Core failed."
  const RecordingType := "audio/webm"

  datatype AttachmentType = ImageAttachment | VideoAttachment

  /** A selected file: its base64 payload, MIME type, the data URL shown as
      its preview, and whether it is an image or a video. */
  datatype Attachment = Attachment(data: Option<string>, mimeType: string, preview: string, kind: AttachmentType)

  /** A file the picker delivered, already read as a data URL. */
  datatype PickedFile = PickedFile(mimeType: string, dataUrl: string)

  /** A recorded audio chunk. */
  datatype AudioChunk = AudioChunk(bytes: seq<byte>)

  /** What a send hands to the router. */
  datatype Turn = Turn(prompt: string, voice: bool, mode: AIMode, media: Option<Media>)

  /** Files whose MIME type starts with `video/` are videos, all others images. */
  function KindOf(mimeType: string): (k: AttachmentType)
    ensures k == VideoAttachment <==> StartsWith(mimeType, "video/")
  {
    if StartsWith(mimeType, "video/") then VideoAttachment else ImageAttachment
  }

  /** The attachment made from a picked file: the payload is the data URL's
      second comma-separated field. */
  function AttachmentOf(f: PickedFile): (a: Attachment)
    ensures a.data == SecondField(f.dataUrl) && a.preview == f.dataUrl && a.mimeType == f.mimeType
  {
    Attachment(SecondField(f.dataUrl), f.mimeType, f.dataUrl, KindOf(f.mimeType))
  }

  /** The attachment kind the panel shows agrees with the branch the router
      takes: a video attachment is analysed as video, an image attachment is
      edited or analysed as an image. */
  lemma AttachmentKindMatchesRoute(prompt: string, f: PickedFile)
    ensures var a := AttachmentOf(f);
      var b := SelectBranch(prompt, Some(Media(a.data, a.mimeType)));
      (a.kind == VideoAttachment <==> b == VideoAnalysis)
      && (a.kind == ImageAttachment <==> (b == ImageEdit || b == ImageAnalysis))
  {
  }

  function MediaOf(a: Option<Attachment>): Option<Media> {
    match a
    case None => None
    case Some(att) => Some(Media(att.data, att.mimeType))
  }

  /** The operator's message: its text is the input as typed, and the preview
      of the attachment becomes its image or its video by the attachment's
      kind. */
  function UserMessage(text: string, a: Option<Attachment>, now: int): (m: Message)
    ensures m.sender == User && m.text == text && !m.isError
    ensures m.imageUrl.Some? <==> a.Some? && a.value.kind == ImageAttachment
    ensures m.videoUrl.Some? <==> a.Some? && a.value.kind == VideoAttachment
    ensures m.imageUrl.Some? ==> m.imageUrl.value == a.value.preview
    ensures m.videoUrl.Some? ==> m.videoUrl.value == a.value.preview
  {
    var image := if a.Some? && a.value.kind == ImageAttachment then Some(a.value.preview) else None;
    var video := if a.Some? && a.value.kind == VideoAttachment then Some(a.value.preview) else None;
    Message(Stamp(now), User, text, image, video, None, None, now, false)
  }

  /** The system's message for a router outcome: the response's fields when
      the router answered, the connection error flagged as an error when it
      threw. */
  function ReplyMessage(result: Result<GeminiResponse, ServiceError>, now: int): (m: Message)
    ensures m.sender == System
    ensures m.isError <==> result.Failure?
    ensures result.Failure? ==>
      && m.text == ConnectionError && m.imageUrl.None? && m.videoUrl.None? && m.audioData.None?
      && m.webSources.None?
    ensures result.Success? ==>
      m.text == result.value.text && m.imageUrl == result.value.imageUrl && m.videoUrl == result.value.videoUrl
      && m.audioData == result.value.audioData && m.webSources == result.value.webSources
  {
    match result
    case Success(r) => Message(Stamp(now + 1), System, r.text, r.imageUrl, r.videoUrl, r.audioData, r.webSources, now, false)
    case Failure(_) => Message(Stamp(now + 1), System, ConnectionError, None, None, None, None, now, true)
  }

  /** A transcript extends the input: it replaces an empty input, and is
      joined to a non-empty one by a single space. */
  function AppendTranscript(prev: string, text: string): (r: string)
    ensures prev == "" ==> r == text
    ensures prev != "" ==> |r| == |prev| + 1 + |text| && r[..|prev|] == prev && r[|prev|] == ' ' && r[|prev| + 1..] == text
  {
    if prev != "" then prev + " " + text else text
  }

  /** The byte size of the blob made of the chunks. */
  function BlobSize(chunks: seq<AudioChunk>): nat {
    if chunks == [] then 0 else |chunks[0].bytes| + BlobSize(chunks[1..])
  }

  /** Chunks of size zero are never buffered, so the blob is empty exactly
      when nothing was buffered. */
  lemma BlobSizePositive(chunks: seq<AudioChunk>)
    requires forall k :: 0 <= k < |chunks| ==> |chunks[k].bytes| > 0
    ensures BlobSize(chunks) > 0 <==> chunks != []
  {
  }

  /** The messages after the greeting alternate operator, system, operator,
      ... and end on a system message unless a send is pending. */
  predicate Paired(ms: seq<Message>, pending: bool) {
    && |ms| % 2 == (if pending then 1 else 0)
    && forall i :: 0 <= i < |ms| ==> ms[i].sender == (if i % 2 == 0 then User else System)
  }

  /** Appending the message whose turn it is keeps the pairing. */
  lemma PairedAppend(ms: seq<Message>, pending: bool, m: Message)
    requires Paired(ms, pending)
    requires m.sender == (if pending then System else User)
    ensures Paired(ms + [m], !pending)
  {
    var ms' := ms + [m];
    forall i | 0 <= i < |ms'| ensures ms'[i].sender == (if i % 2 == 0 then User else System) {
      if i == |ms| {
        assert |ms| % 2 == (if pending then 1 else 0);
      }
    }
  }

  class Session {
    var messages: seq<Message>
    var input: string
    var attachment: Option<Attachment>
    var loading: bool
    var transcribing: bool
    var voiceMode: bool
    var aiMode: AIMode
    var audioChunks: seq<AudioChunk>

    /** The greeting opens the conversation, operator and system messages
        alternate after it (a send in flight owes one system message), and
        every buffered audio chunk holds data. */
    ghost predicate Valid()
      reads this
    {
      && |messages| >= 1 && messages[0].id == InitId && messages[0].sender == System
      && Paired(messages[1..], loading)
      && forall k :: 0 <= k < |audioChunks| ==> |audioChunks[k].bytes| > 0
    }

    /** The panel as it mounts: the greeting, an empty input, standard mode,
        voice mode off, nothing pending. */
    constructor(now: int)
      ensures Valid()
      ensures messages == [Message(InitId, System, Greeting, None, None, None, None, now, false)]
      ensures input == "" && attachment.None? && !loading && !transcribing
      ensures !voiceMode && aiMode == Standard && audioChunks == []
    {
      messages := [Message(InitId, System, Greeting, None, None, None, None, now, false)];
      input := "";
      attachment := None;
      loading := false;
      transcribing := false;
      voiceMode := false;
      aiMode := Standard;
      audioChunks := [];
    }

    /** The tier buttons. */
    method SetAiMode(mode: AIMode)
      requires Valid()
      modifies this
      ensures Valid()
      ensures aiMode == mode
      ensures messages == old(messages) && input == old(input) && attachment == old(attachment)
      ensures loading == old(loading) && transcribing == old(transcribing) && voiceMode == old(voiceMode)
      ensures audioChunks == old(audioChunks)
    {
      aiMode := mode;
    }

    /** `handleFileSelect`: a picked file becomes the attachment; no file
        changes nothing. */
    method SelectFile(file: Option<PickedFile>)
      requires Valid()
      modifies this
      ensures Valid()
      ensures file.Some? ==> attachment == Some(AttachmentOf(file.value))
      ensures file.None? ==> attachment == old(attachment)
      ensures messages == old(messages) && input == old(input) && loading == old(loading)
      ensures transcribing == old(transcribing) && voiceMode == old(voiceMode) && aiMode == old(aiMode)
      ensures audioChunks == old(audioChunks)
    {
      if file.Some? {
        attachment := Some(AttachmentOf(file.value));
      }
    }

    /** `removeAttachment`. */
    method RemoveAttachment()
      requires Valid()
      modifies this
      ensures Valid()
      ensures attachment.None?
      ensures messages == old(messages) && input == old(input) && loading == old(loading)
      ensures transcribing == old(transcribing) && voiceMode == old(voiceMode) && aiMode == old(aiMode)
      ensures audioChunks == old(audioChunks)
    {
      attachment := None;
    }

    /** `handleSend` up to its await. Nothing happens when there is nothing
        to send (blank input, no attachment) or when a send or a
        transcription is in progress. Otherwise the operator's message is
        appended, the input and attachment are cleared, the panel is busy,
        the voice mode is toggled by the input, and the turn for the router
        carries the new voice mode. */
    method BeginSend(now: int) returns (turn: Option<Turn>)
      requires Valid()
      modifies this
      ensures Valid()
      ensures turn.None? <==> (Trim(old(input)) == [] && old(attachment).None?) || old(loading) || old(transcribing)
      ensures turn.None? ==> unchanged(this)
      ensures turn.Some? ==>
        && messages == old(messages) + [UserMessage(old(input), old(attachment), now)]
        && input == "" && attachment.None? && loading
        && voiceMode == NextVoiceMode(old(input), old(voiceMode))
        && turn.value == Turn(old(input), voiceMode, old(aiMode), MediaOf(old(attachment)))
        && transcribing == old(transcribing) && aiMode == old(aiMode) && audioChunks == old(audioChunks)
    {
      if (Trim(input) == [] && attachment.None?) || loading || transcribing {
        return None;
      }
      var currentInput := input;
      var currentAttachment := attachment;
      var userMessage := UserMessage(currentInput, currentAttachment, now);
      PairedAppend(messages[1..], false, userMessage);
      assert (messages + [userMessage])[1..] == messages[1..] + [userMessage];
      messages := messages + [userMessage];
      input := "";
      attachment := None;
      loading := true;
      var nextVoiceMode := NextVoiceMode(currentInput, voiceMode);
      voiceMode := nextVoiceMode;
      turn := Some(Turn(currentInput, nextVoiceMode, aiMode, MediaOf(currentAttachment)));
    }

    /** `handleSend` after its await, given what the router returned:
        exactly one system message is appended, the response or the
        connection error, and the panel is no longer busy. */
    method FinishSend(outcome: Result<GeminiResponse, ServiceError>, now: int)
      requires Valid() && loading
      modifies this
      ensures Valid() && !loading
      ensures messages == old(messages) + [ReplyMessage(outcome, now)]
      ensures input == old(input) && attachment == old(attachment) && transcribing == old(transcribing)
      ensures voiceMode == old(voiceMode) && aiMode == old(aiMode) && audioChunks == old(audioChunks)
    {
      var reply := ReplyMessage(outcome, now);
      PairedAppend(messages[1..], true, reply);
      assert (messages + [reply])[1..] == messages[1..] + [reply];
      assert (messages + [reply])[0] == messages[0];
      messages := messages + [reply];
      loading := false;
    }

    /** A whole send: when it proceeds, the conversation grows by the
        operator's message and then the system's, and the router was asked
        with the voice mode the input just selected. */
    method HandleSend(apiKey: string, replies: Replies, now: int, later: int) returns (calls: seq<Request>)
      requires Valid()
      modifies this
      ensures Valid()
      ensures (Trim(old(input)) == [] && old(attachment).None?) || old(loading) || old(transcribing) ==>
        unchanged(this) && calls == []
      ensures !((Trim(old(input)) == [] && old(attachment).None?) || old(loading) || old(transcribing)) ==>
        && voiceMode == NextVoiceMode(old(input), old(voiceMode))
        && messages == old(messages) + [UserMessage(old(input), old(attachment), now),
             ReplyMessage(Respond(apiKey, old(input), voiceMode, old(aiMode), MediaOf(old(attachment)), replies).result, later)]
        && calls == Respond(apiKey, old(input), voiceMode, old(aiMode), MediaOf(old(attachment)), replies).calls
        && !loading && input == "" && attachment.None?
        && aiMode == old(aiMode) && transcribing == old(transcribing) && audioChunks == old(audioChunks)
    {
      var turn := BeginSend(now);
      if turn.None? {
        return [];
      }
      var t := turn.value;
      var x := SendMessageToGemini(apiKey, t.prompt, t.voice, t.mode, t.media, replies);
      FinishSend(x.result, later);
      calls := x.calls;
    }

    /** A new recorder starts with an empty chunk buffer. */
    method OnRecorderStart()
      requires Valid()
      modifies this
      ensures Valid()
      ensures audioChunks == []
      ensures messages == old(messages) && input == old(input) && attachment == old(attachment)
      ensures loading == old(loading) && transcribing == old(transcribing)
      ensures voiceMode == old(voiceMode) && aiMode == old(aiMode)
    {
      audioChunks := [];
    }

    /** `ondataavailable`: chunks with data are buffered, empty ones dropped. */
    method OnAudioData(chunk: AudioChunk)
      requires Valid()
      modifies this
      ensures Valid()
      ensures audioChunks == old(audioChunks) + (if |chunk.bytes| > 0 then [chunk] else [])
      ensures messages == old(messages) && input == old(input) && attachment == old(attachment)
      ensures loading == old(loading) && transcribing == old(transcribing)
      ensures voiceMode == old(voiceMode) && aiMode == old(aiMode)
    {
      if |chunk.bytes| > 0 {
        audioChunks := audioChunks + [chunk];
      }
    }

    /** `onstop` up to its awaits: an empty recording is never transcribed;
        otherwise the panel starts transcribing. */
    method OnRecorderStop() returns (started: bool)
      requires Valid()
      modifies this
      ensures Valid()
      ensures started <==> old(audioChunks) != []
      ensures transcribing == (old(transcribing) || started)
      ensures messages == old(messages) && input == old(input) && attachment == old(attachment)
      ensures loading == old(loading) && voiceMode == old(voiceMode) && aiMode == old(aiMode)
      ensures audioChunks == old(audioChunks)
    {
      BlobSizePositive(audioChunks);
      started := BlobSize(audioChunks) > 0;
      if started {
        transcribing := true;
      }
    }

    /** `onstop` after its awaits: the recording, encoded as base64, is sent
        for transcription; a transcript extends the input, a failure leaves
        it alone, and transcription ends either way. */
    method FinishTranscription(apiKey: string, encoded: string, reply: PrimaryReply) returns (calls: seq<Request>)
      requires Valid()
      modifies this
      ensures Valid() && !transcribing
      ensures var x := TranscribeAudio(apiKey, encoded, RecordingType, reply);
        && calls == x.calls
        && input == (if x.result.Success? then AppendTranscript(old(input), x.result.value) else old(input))
      ensures messages == old(messages) && attachment == old(attachment) && loading == old(loading)
      ensures voiceMode == old(voiceMode) && aiMode == old(aiMode) && audioChunks == old(audioChunks)
    {
      var x := TranscribeAudio(apiKey, encoded, RecordingType, reply);
      if x.result.Success? {
        input := AppendTranscript(input, x.result.value);
      }
      transcribing := false;
      calls := x.calls;
    }
  }
}
