/** The response router of the chat service (services/geminiService.ts): which
    remote capability a turn goes to, with which model and configuration, how
    the reply is turned into the message payload, which follow-up calls the
    inline directives and voice mode trigger, and how their failures are
    contained. The remote service itself is not modelled: every reply it gives
    is an input (`Replies`), and the router's result records the requests it
    issued, in order (`calls`). */
module GeminiService {
  import opened Types
  import opened JsString
  import opened Directives

  /** The reasoning tier selected in the chat panel. */
  datatype AIMode = Turbo | Standard | Thinking

  /** Media attached to a turn: its base64 payload (undefined when the data
      URL it was cut from had no comma) and its MIME type. */
  datatype Media = Media(data: Option<string>, mimeType: string)

  datatype InlineData = InlineData(mimeType: string, data: string)

  /** A content part of a reply. An absent text reads as the empty string,
      which is falsy just as `undefined` is. */
  datatype Part = Part(inlineData: Option<InlineData>, text: string)

  datatype Web = Web(uri: Option<string>, title: Option<string>)

  /** A grounding chunk of a search-grounded reply. */
  datatype GroundingChunk = GroundingChunk(web: Option<Web>)

  /** The remote capability a turn is routed to. */
  datatype Branch = VideoAnalysis | ImageEdit | ImageAnalysis | TextGeneration

  /** Model and configuration of a text-generation call. */
  datatype TextConfig = TextConfig(model: string, thinkingBudget: Option<nat>, googleSearch: bool)

  /** The requests the router issues. `voicePersona` tells whether the system
      instruction carries the voice-mode addendum. */
  datatype Request =
    | AnalyzeVideo(model: string, media: Media, prompt: string, voicePersona: bool)
    | EditImage(model: string, media: Media, prompt: string)
    | AnalyzeImage(model: string, media: Media, prompt: string, voicePersona: bool)
    | GenerateText(config: TextConfig, prompt: string, voicePersona: bool)
    | GenerateVideo(model: string, prompt: string, resolution: string, aspectRatio: string)
    | FetchVideo(url: string)
    | GenerateImage(model: string, prompt: string)
    | Speak(model: string, text: string, voiceName: string)
    | Transcribe(model: string, media: Media, instruction: string)

  /** What the primary call returned: its `text`, the parts of its first
      candidate and the grounding chunks of its first candidate. */
  datatype PrimaryReply =
    | PrimaryFailed
    | PrimaryReady(text: string, parts: Option<seq<Part>>, groundingChunks: Option<seq<GroundingChunk>>)

  /** The video job, polled until done: it fails, or it finishes with the
      download link of its first video (possibly absent) and what fetching that
      link and re-reading it as a data URL gives. */
  datatype VideoReply = VideoFailed | VideoDone(downloadLink: Option<string>, download: DownloadReply)

  datatype DownloadReply = DownloadFailed | Downloaded(dataUrl: string)

  /** The video follow-up throws: the job fails, or it finishes with a link
      whose download fails (a missing link is never fetched). */
  predicate VideoFails(v: VideoReply) {
    v.VideoFailed? || (Truthy(v.downloadLink) && v.download.DownloadFailed?)
  }

  datatype ImageReply = ImageFailed | ImageReady(parts: Option<seq<Part>>)

  datatype SpeechReply = SpeechFailed | SpeechReady(parts: Option<seq<Part>>)

  /** The replies the remote service gives to the calls of one turn. */
  datatype Replies = Replies(primary: PrimaryReply, video: VideoReply, image: ImageReply, speech: SpeechReply)

  /** The payload of a system turn. */
  datatype GeminiResponse = GeminiResponse(
    text: string,
    imageUrl: Option<string>,
    videoUrl: Option<string>,
    audioData: Option<string>,
    webSources: Option<seq<WebSource>>)

  /** Errors that cross the router's boundary. */
  datatype ServiceError = MissingApiKey | RemoteError

  /** The outcome of an entry point together with the requests it issued. */
  datatype Exchange<T> = Exchange(result: Result<T, ServiceError>, calls: seq<Request>)

  // Models and constants of the remote service.
  const FlashModel := "gemini-2.5-flash"
  const FlashLiteModel := "gemini-2.5-flash-lite"
  const ProModel := "gemini-3-pro-preview"
  const FlashImageModel := "gemini-2.5-flash-image"
  const VideoModel := "veo-3.1-fast-generate-preview"
  const SpeechModel := "gemini-2.5-flash-preview-tts"
  const SpeechVoice := "Aoife"
  const MaxThinkingBudget: nat := 32768
  const TranscribeInstruction := "Transcribe this audio precisely. Return only the text."

  /** The annotation appended to the visible text when video generation fails. */
  const VideoFailureNote := "\n[SYSTEM ERROR: Video generation protocol failed.]"

  /** The keywords whose presence in the prompt marks an image-edit request. */
  const EditKeywords: seq<string> :=
    ["edit", "add", "remove", "change", "filter", "style", "make", "turn", "background"]

  /** `s || fallback` on strings. */
  function OrElse(s: string, fallback: string): string {
    if s != "" then s else fallback
  }

  /** A string that is present and non-empty, as JavaScript's truthiness has it. */
  predicate Truthy(s: Option<string>) {
    s.Some? && s.value != ""
  }

  /** The data URL the router builds from an inline-data part. */
  function DataUri(d: InlineData): string {
    "data:" + d.mimeType + ";base64," + d.data
  }

  /** `keywords.some(kw => s.includes(kw))`. */
  function AnyKeyword(s: string, keywords: seq<string>): (r: bool)
    ensures r <==> exists k :: 0 <= k < |keywords| && Contains(s, keywords[k])
  {
    if keywords == [] then false
    else
      var r := Contains(s, keywords[0]) || AnyKeyword(s, keywords[1..]);
      assert r ==> exists k :: 0 <= k < |keywords| && Contains(s, keywords[k]) by {
        if !Contains(s, keywords[0]) && AnyKeyword(s, keywords[1..]) {
          var k :| 0 <= k < |keywords| - 1 && Contains(s, keywords[1..][k]);
          assert Contains(s, keywords[k + 1]);
        }
      }
      assert (exists k :: 0 <= k < |keywords| && Contains(s, keywords[k])) ==> r by {
        if k :| 0 <= k < |keywords| && Contains(s, keywords[k]) {
          if k > 0 { assert Contains(s, keywords[1..][k - 1]); }
        }
      }
      r
  }

  /** An image prompt asks for an edit when its lower-cased text contains one
      of the edit keywords as a plain substring. */
  function IsEditRequest(prompt: string): (r: bool)
    ensures r <==> exists k :: 0 <= k < |EditKeywords| && Contains(Lower(prompt), EditKeywords[k])
  {
    AnyKeyword(Lower(prompt), EditKeywords)
  }

  /** The branch a turn takes: video media to video analysis, other media to
      image edit or image analysis by the edit keywords, no media to text
      generation. */
  function SelectBranch(prompt: string, media: Option<Media>): (b: Branch)
    ensures b == VideoAnalysis <==> media.Some? && StartsWith(media.value.mimeType, "video/")
    ensures b == ImageEdit <==>
      media.Some? && !StartsWith(media.value.mimeType, "video/")
      && exists k :: 0 <= k < |EditKeywords| && Contains(Lower(prompt), EditKeywords[k])
    ensures b == ImageAnalysis <==>
      media.Some? && !StartsWith(media.value.mimeType, "video/")
      && forall k :: 0 <= k < |EditKeywords| ==> !Contains(Lower(prompt), EditKeywords[k])
    ensures b == TextGeneration <==> media.None?
  {
    match media
    case None => TextGeneration
    case Some(m) =>
      if StartsWith(m.mimeType, "video/") then VideoAnalysis
      else if IsEditRequest(prompt) then ImageEdit
      else ImageAnalysis
  }

  /** The text-generation model and configuration for each mode: only the
      standard mode grounds its answers in web search, only the thinking mode
      sets a reasoning budget, and each mode has its own model. */
  function TextModeConfig(mode: AIMode): (c: TextConfig)
    ensures c.googleSearch <==> mode == Standard
    ensures c.thinkingBudget.Some? <==> mode == Thinking
    ensures c.thinkingBudget.Some? ==> c.thinkingBudget.value == MaxThinkingBudget
    ensures !(c.googleSearch && c.thinkingBudget.Some?)
    ensures mode == Turbo ==> c.model == FlashLiteModel
    ensures mode == Thinking ==> c.model == ProModel
    ensures mode == Standard ==> c.model == FlashModel
  {
    match mode
    case Turbo => TextConfig(FlashLiteModel, None, false)
    case Thinking => TextConfig(ProModel, Some(MaxThinkingBudget), false)
    case Standard => TextConfig(FlashModel, None, true)
  }

  /** Each mode has its own text model, so a mode switch changes the model. */
  lemma ModesUseDistinctModels(m1: AIMode, m2: AIMode)
    ensures TextModeConfig(m1).model == TextModeConfig(m2).model <==> m1 == m2
  {
    assert FlashModel[7] == '2' && FlashLiteModel[7] == '2' && ProModel[7] == '3';
    assert |FlashLiteModel| != |FlashModel|;
  }

  /** The primary request of a branch. A media branch sends the media first
      and the prompt, or a default instruction when the prompt is empty. */
  function PrimaryRequest(b: Branch, prompt: string, voice: bool, mode: AIMode, media: Option<Media>): (r: Request)
    requires b != TextGeneration ==> media.Some?
    ensures r.AnalyzeVideo? <==> b == VideoAnalysis
    ensures r.EditImage? <==> b == ImageEdit
    ensures r.AnalyzeImage? <==> b == ImageAnalysis
    ensures r.GenerateText? <==> b == TextGeneration
    ensures b != TextGeneration ==> (r.AnalyzeVideo? || r.EditImage? || r.AnalyzeImage?) && r.media == media.value
    ensures b == VideoAnalysis ==>
      && r.model == ProModel && r.voicePersona == voice
      && r.prompt == (if prompt == "" then "Analyze this video and describe what is happening in detail." else prompt)
    ensures b == ImageEdit ==>
      && r.model == FlashImageModel
      && r.prompt == (if prompt == "" then "Edit this image" else prompt)
    ensures b == ImageAnalysis ==>
      && r.model == ProModel && r.voicePersona == voice
      && r.prompt == (if prompt == "" then "Analyze this image in detail." else prompt)
    ensures b == TextGeneration ==> r.config == TextModeConfig(mode) && r.prompt == prompt && r.voicePersona == voice
  {
    match b
    case VideoAnalysis =>
      AnalyzeVideo(ProModel, media.value, OrElse(prompt, "Analyze this video and describe what is happening in detail."), voice)
    case ImageEdit =>
      EditImage(FlashImageModel, media.value, OrElse(prompt, "Edit this image"))
    case ImageAnalysis =>
      AnalyzeImage(ProModel, media.value, OrElse(prompt, "Analyze this image in detail."), voice)
    case TextGeneration =>
      GenerateText(TextModeConfig(mode), prompt, voice)
  }

  // ---------------------------------------------------------------------
  // Part extraction

  /** The text an image edit returns: its text parts in order; a part that
      carries inline data contributes no text. */
  function EditText(parts: seq<Part>): string {
    if parts == [] then ""
    else
      var last := parts[|parts| - 1];
      EditText(parts[..|parts| - 1]) + (if last.inlineData.None? then last.text else "")
  }

  /** The edit text is empty exactly when every part carries inline data or
      an empty text, which is when the fallback sentence takes over. */
  lemma {:induction false} EditTextEmpty(parts: seq<Part>)
    ensures EditText(parts) == [] <==> forall k :: 0 <= k < |parts| ==> parts[k].inlineData.Some? || parts[k].text == []
  {
    if parts != [] {
      var init := parts[..|parts| - 1];
      EditTextEmpty(init);
      assert forall k :: 0 <= k < |init| ==> init[k] == parts[k];
    }
  }

  /** The image an edit returns: every inline-data part overwrites the last,
      so the result is the last inline-data part's data URL. */
  function LastInlineUrl(parts: seq<Part>): (r: Option<string>)
    ensures r.None? <==> forall k :: 0 <= k < |parts| ==> parts[k].inlineData.None?
    ensures r.Some? ==> exists k :: (0 <= k < |parts| && parts[k].inlineData.Some?
      && r.value == DataUri(parts[k].inlineData.value)
      && forall j :: k < j < |parts| ==> parts[j].inlineData.None?)
  {
    if parts == [] then None
    else
      var n := |parts| - 1;
      if parts[n].inlineData.Some? then Some(DataUri(parts[n].inlineData.value))
      else
        var r := LastInlineUrl(parts[..n]);
        assert forall k :: 0 <= k < n ==> parts[..n][k] == parts[k];
        r
  }

  /** The image a generation returns: the first inline-data part, after which
      the scan stops. */
  function FirstInlineUrl(parts: seq<Part>): (r: Option<string>)
    ensures r.None? <==> forall k :: 0 <= k < |parts| ==> parts[k].inlineData.None?
    ensures r.Some? ==> exists k :: (0 <= k < |parts| && parts[k].inlineData.Some?
      && r.value == DataUri(parts[k].inlineData.value)
      && forall j :: 0 <= j < k ==> parts[j].inlineData.None?)
  {
    if parts == [] then None
    else if parts[0].inlineData.Some? then Some(DataUri(parts[0].inlineData.value))
    else
      var r := FirstInlineUrl(parts[1..]);
      assert forall k :: 1 <= k < |parts| ==> parts[1..][k - 1] == parts[k];
      r
  }

  /** The edit branch's part loop: text parts are concatenated, each
      inline-data part overwrites the image URL. */
  method CollectEditParts(parts: seq<Part>) returns (text: string, imageUrl: Option<string>)
    ensures text == EditText(parts) && imageUrl == LastInlineUrl(parts)
  {
    text, imageUrl := "", None;
    var i := 0;
    while i < |parts|
      invariant 0 <= i <= |parts|
      invariant text == EditText(parts[..i]) && imageUrl == LastInlineUrl(parts[..i])
    {
      var part := parts[i];
      assert parts[..i + 1][..i] == parts[..i];
      if part.inlineData.Some? {
        imageUrl := Some(DataUri(part.inlineData.value));
      } else if part.text != "" {
        text := text + part.text;
      }
      i := i + 1;
    }
    assert parts[..i] == parts;
  }

  /** The image-generation loop: the first inline-data part gives the image URL
      and the loop breaks. */
  method FirstInlineImage(parts: seq<Part>) returns (imageUrl: Option<string>)
    ensures imageUrl == FirstInlineUrl(parts)
  {
    imageUrl := None;
    var i := 0;
    while i < |parts|
      invariant 0 <= i <= |parts|
      invariant imageUrl == None
      invariant forall k :: 0 <= k < i ==> parts[k].inlineData.None?
    {
      if parts[i].inlineData.Some? {
        imageUrl := Some(DataUri(parts[i].inlineData.value));
        break;
      }
      i := i + 1;
    }
  }

  // ---------------------------------------------------------------------
  // Grounding citations

  /** A chunk whose web uri is truthy. */
  predicate HasUri(c: GroundingChunk) {
    c.web.Some? && Truthy(c.web.value.uri)
  }

  function SourceOf(c: GroundingChunk): WebSource
    requires HasUri(c)
  {
    WebSource(c.web.value.uri.value, c.web.value.title)
  }

  /** `chunks.map(c => ({uri, title})).filter(s => s.uri)`. */
  function CollectSources(chunks: seq<GroundingChunk>): (r: seq<WebSource>)
    ensures |r| <= |chunks|
    ensures forall w :: w in r ==> w.uri != ""
    ensures r == [] <==> forall k :: 0 <= k < |chunks| ==> !HasUri(chunks[k])
  {
    if chunks == [] then []
    else
      var rest := CollectSources(chunks[1..]);
      assert forall k :: 1 <= k < |chunks| ==> chunks[1..][k - 1] == chunks[k];
      if HasUri(chunks[0]) then [SourceOf(chunks[0])] + rest else rest
  }

  /** `webSources` is undefined when the reply has no grounding chunks. */
  function WebSourcesOf(chunks: Option<seq<GroundingChunk>>): (r: Option<seq<WebSource>>)
    ensures r.None? <==> chunks.None?
    ensures r.Some? ==> r.value == CollectSources(chunks.value)
  {
    match chunks
    case None => None
    case Some(cs) => Some(CollectSources(cs))
  }

  // ---------------------------------------------------------------------
  // Follow-up calls

  /** The stylistic wrapper around a directive's image prompt. */
  function ImagePrompt(p: string): string {
    "A high-tech, futuristic neon blue schematic diagram: " + p + ". Cyberpunk aesthetic, white and cyan lines on black."
  }

  /** The payload being assembled before speech synthesis. */
  datatype Draft = Draft(
    text: string,
    imageUrl: Option<string>,
    videoUrl: Option<string>,
    webSources: Option<seq<WebSource>>,
    calls: seq<Request>)

  /** Acting on the directive of a text answer: a video job, an image
      generation or nothing. A video failure is annotated in the text; an image
      failure is only logged. */
  function FollowDirective(apiKey: string, d: Directive, text: string, sources: Option<seq<WebSource>>, replies: Replies): Draft
  {
    match d
    case NoDirective => Draft(text, None, None, sources, [])
    case VideoDirective(p, visible) =>
      var submit := GenerateVideo(VideoModel, p, "720p", "16:9");
      (match replies.video
       case VideoFailed => Draft(visible + VideoFailureNote, None, None, sources, [submit])
       case VideoDone(link, download) =>
         if Truthy(link) then
           var fetch := FetchVideo(link.value + "&key=" + apiKey);
           (match download
            case DownloadFailed => Draft(visible + VideoFailureNote, None, None, sources, [submit, fetch])
            case Downloaded(dataUrl) => Draft(visible, None, Some(dataUrl), sources, [submit, fetch]))
         else Draft(visible, None, None, sources, [submit]))
    case ImageDirective(p, visible) =>
      var request := GenerateImage(FlashImageModel, ImagePrompt(p));
      (match replies.image
       case ImageFailed => Draft(visible, None, None, sources, [request])
       case ImageReady(parts) => Draft(visible, FirstInlineUrl(PartsOrNone(parts)), None, sources, [request]))
  }

  /** Parts that are missing are scanned as no parts at all. */
  function PartsOrNone(parts: Option<seq<Part>>): seq<Part> {
    match parts
    case None => []
    case Some(ps) => ps
  }

  /** What the branch makes of a successful primary reply. */
  function AfterPrimary(apiKey: string, b: Branch, reply: PrimaryReply, replies: Replies): Draft
    requires reply.PrimaryReady?
  {
    match b
    case VideoAnalysis => Draft(OrElse(reply.text, "Video analysis complete."), None, None, None, [])
    case ImageEdit =>
      var parts := PartsOrNone(reply.parts);
      Draft(OrElse(EditText(parts), "Image edit complete."), LastInlineUrl(parts), None, None, [])
    case ImageAnalysis => Draft(OrElse(reply.text, "Analysis complete."), None, None, None, [])
    case TextGeneration =>
      var text := OrElse(reply.text, "System Error: Empty response received.");
      FollowDirective(apiKey, ParseDirective(text), text, WebSourcesOf(reply.groundingChunks), replies)
  }

  /** Audio of a speech reply: the inline data of the first part of the first
      candidate, if that part has any. */
  function FirstPartAudio(parts: Option<seq<Part>>): (r: Option<string>)
    ensures r.Some? <==> parts.Some? && |parts.value| > 0 && parts.value[0].inlineData.Some?
    ensures r.Some? ==> r.value == parts.value[0].inlineData.value.data
  {
    if parts.Some? && |parts.value| > 0 && parts.value[0].inlineData.Some? then Some(parts.value[0].inlineData.value.data)
    else None
  }

  predicate IsSpeak(r: Request) {
    r.Speak?
  }

  /** The number of speech-synthesis requests among `calls`. */
  function SpeechCount(calls: seq<Request>): nat {
    if calls == [] then 0 else (if IsSpeak(calls[0]) then 1 else 0) + SpeechCount(calls[1..])
  }

  lemma {:induction false} SpeechCountAppend(a: seq<Request>, b: seq<Request>)
    ensures SpeechCount(a + b) == SpeechCount(a) + SpeechCount(b)
  {
    if a != [] {
      assert (a + b)[0] == a[0];
      assert (a + b)[1..] == a[1..] + b;
      SpeechCountAppend(a[1..], b);
    } else {
      assert a + b == b;
    }
  }

  // ---------------------------------------------------------------------
  // The entry points

  /** `sendMessageToGemini`, as a function of the remote replies. */
  function Respond(apiKey: string, prompt: string, voice: bool, mode: AIMode, media: Option<Media>, replies: Replies)
    : (x: Exchange<GeminiResponse>)
    ensures apiKey == "" ==> x == Exchange(Failure(MissingApiKey), [])
    ensures apiKey != "" ==> (|x.calls| >= 1
      && x.calls[0] == PrimaryRequest(SelectBranch(prompt, media), prompt, voice, mode, media))
    ensures x.result.Failure? <==> apiKey == "" || replies.primary.PrimaryFailed?
    ensures apiKey != "" && replies.primary.PrimaryFailed? ==> x.result == Failure(RemoteError) && |x.calls| == 1
  {
    if apiKey == "" then Exchange(Failure(MissingApiKey), [])
    else
      var b := SelectBranch(prompt, media);
      var primary := PrimaryRequest(b, prompt, voice, mode, media);
      match replies.primary
      case PrimaryFailed => Exchange(Failure(RemoteError), [primary])
      case PrimaryReady(_, _, _) =>
        var draft := AfterPrimary(apiKey, b, replies.primary, replies);
        var speak := voice && draft.text != "";
        var audio := if speak && replies.speech.SpeechReady? then FirstPartAudio(replies.speech.parts) else None;
        var speech := if speak then [Speak(SpeechModel, draft.text, SpeechVoice)] else [];
        Exchange(
          Success(GeminiResponse(draft.text, draft.imageUrl, draft.videoUrl, audio, draft.webSources)),
          [primary] + draft.calls + speech)
  }

  /** `transcribeAudio`, as a function of the remote reply. */
  function TranscribeAudio(apiKey: string, audioBase64: string, mimeType: string, reply: PrimaryReply)
    : (x: Exchange<string>)
    ensures apiKey == "" ==> x == Exchange(Failure(MissingApiKey), [])
    ensures apiKey != "" ==> x.calls == [Transcribe(FlashModel, Media(Some(audioBase64), mimeType), TranscribeInstruction)]
    ensures x.result.Success? <==> apiKey != "" && reply.PrimaryReady?
    ensures x.result.Success? ==> x.result.value == reply.text
  {
    if apiKey == "" then Exchange(Failure(MissingApiKey), [])
    else
      var call := Transcribe(FlashModel, Media(Some(audioBase64), mimeType), TranscribeInstruction);
      match reply
      case PrimaryFailed => Exchange(Failure(RemoteError), [call])
      case PrimaryReady(text, _, _) => Exchange(Success(text), [call])
  }

  // ---------------------------------------------------------------------
  // Properties of the router

  /** Text parts are kept in order: the edit text of a concatenation is the
      concatenation of the edit texts. */
  lemma {:induction false} EditTextAppend(a: seq<Part>, b: seq<Part>)
    ensures EditText(a + b) == EditText(a) + EditText(b)
  {
    if b == [] {
      assert a + b == a;
    } else {
      var n := |b| - 1;
      assert (a + b)[..|a + b| - 1] == a + b[..n];
      assert (a + b)[|a + b| - 1] == b[n];
      EditTextAppend(a, b[..n]);
    }
  }

  /** Citations are kept in the order of their chunks. */
  lemma {:induction false} CollectSourcesAppend(a: seq<GroundingChunk>, b: seq<GroundingChunk>)
    ensures CollectSources(a + b) == CollectSources(a) + CollectSources(b)
  {
    if a == [] {
      assert a + b == b;
    } else {
      assert (a + b)[0] == a[0];
      assert (a + b)[1..] == a[1..] + b;
      CollectSourcesAppend(a[1..], b);
    }
  }

  /** Every chunk with a truthy uri is cited, with its uri and title. */
  lemma {:induction false} CollectSourcesKeeps(chunks: seq<GroundingChunk>, k: nat)
    requires k < |chunks| && HasUri(chunks[k])
    ensures SourceOf(chunks[k]) in CollectSources(chunks)
  {
    if k > 0 {
      assert chunks[1..][k - 1] == chunks[k];
      CollectSourcesKeeps(chunks[1..], k - 1);
    }
  }

  lemma {:induction false} NoSpeakCountsZero(calls: seq<Request>)
    requires forall k :: 0 <= k < |calls| ==> !IsSpeak(calls[k])
    ensures SpeechCount(calls) == 0
  {
    if calls != [] {
      assert forall k :: 0 <= k < |calls| - 1 ==> calls[1..][k] == calls[k + 1];
      NoSpeakCountsZero(calls[1..]);
    }
  }

  /** The follow-up calls of a directive never include speech synthesis. */
  lemma FollowDirectiveSpeaksNot(apiKey: string, d: Directive, text: string, sources: Option<seq<WebSource>>, replies: Replies)
    ensures SpeechCount(FollowDirective(apiKey, d, text, sources, replies).calls) == 0
  {
    var calls := FollowDirective(apiKey, d, text, sources, replies).calls;
    assert forall k :: 0 <= k < |calls| ==> !IsSpeak(calls[k]);
    NoSpeakCountsZero(calls);
  }

  /** Speech is synthesised exactly once when voice mode is on and the final
      text is non-empty, and not at all otherwise; audio only ever comes
      from that call. */
  lemma SpeechGate(apiKey: string, prompt: string, voice: bool, mode: AIMode, media: Option<Media>, replies: Replies)
    ensures var x := Respond(apiKey, prompt, voice, mode, media, replies);
      x.result.Success? ==>
        && SpeechCount(x.calls) == (if voice && x.result.value.text != "" then 1 else 0)
        && (x.result.value.audioData.Some? ==> voice && x.result.value.text != "" && replies.speech.SpeechReady?)
  {
    var x := Respond(apiKey, prompt, voice, mode, media, replies);
    if x.result.Success? {
      var b := SelectBranch(prompt, media);
      var draft := AfterPrimary(apiKey, b, replies.primary, replies);
      var speech := if voice && draft.text != "" then [Speak(SpeechModel, draft.text, SpeechVoice)] else [];
      assert x.calls == [PrimaryRequest(b, prompt, voice, mode, media)] + draft.calls + speech;
      SpeechCountAppend([PrimaryRequest(b, prompt, voice, mode, media)] + draft.calls, speech);
      SpeechCountAppend([PrimaryRequest(b, prompt, voice, mode, media)], draft.calls);
      assert SpeechCount([PrimaryRequest(b, prompt, voice, mode, media)]) == 0;
      if b == TextGeneration {
        var answer := OrElse(replies.primary.text, "System Error: Empty response received.");
        FollowDirectiveSpeaksNot(apiKey, ParseDirective(answer), answer, WebSourcesOf(replies.primary.groundingChunks), replies);
      }
      if speech != [] {
        assert SpeechCount(speech) == 1 by { assert speech[1..] == []; }
      }
    }
  }

  /** A media turn always answers with some text: each media branch falls
      back to a fixed sentence when the reply has none. */
  lemma MediaTurnHasText(apiKey: string, prompt: string, voice: bool, mode: AIMode, media: Option<Media>, replies: Replies)
    requires media.Some?
    ensures var x := Respond(apiKey, prompt, voice, mode, media, replies);
      x.result.Success? ==> x.result.value.text != "" && x.result.value.webSources.None? && x.result.value.videoUrl.None?
  {
  }

  /** An empty reply is replaced by the branch's fixed sentence, and a
      non-empty one is kept as it is. In a text turn the replacement carries
      no directive tag, so nothing further is requested. */
  lemma EmptyReplyFallbacks(apiKey: string, prompt: string, voice: bool, mode: AIMode, media: Option<Media>, replies: Replies, empty: string)
    requires apiKey != "" && replies.primary.PrimaryReady?
    requires empty == "System Error: Empty response received."
    ensures SelectBranch(prompt, media) == VideoAnalysis ==>
      Respond(apiKey, prompt, voice, mode, media, replies).result.value.text
        == (if replies.primary.text == "" then "Video analysis complete." else replies.primary.text)
    ensures SelectBranch(prompt, media) == ImageAnalysis ==>
      Respond(apiKey, prompt, voice, mode, media, replies).result.value.text
        == (if replies.primary.text == "" then "Analysis complete." else replies.primary.text)
    ensures SelectBranch(prompt, media) == ImageEdit ==>
      Respond(apiKey, prompt, voice, mode, media, replies).result.value.text
        == (if EditText(PartsOrNone(replies.primary.parts)) == "" then "Image edit complete." else EditText(PartsOrNone(replies.primary.parts)))
    ensures SelectBranch(prompt, media) == TextGeneration && replies.primary.text == "" ==>
      && Respond(apiKey, prompt, voice, mode, media, replies).result.value.text == empty
      && |Respond(apiKey, prompt, voice, mode, media, replies).calls| == 1 + (if voice then 1 else 0)
  {
    if SelectBranch(prompt, media) == TextGeneration && replies.primary.text == "" {
      assert '[' !in empty;
      forall t: Tag, m: TagMatch ensures !Spans(empty, t, m) {
        NoSpanWithoutBracket(empty, t, m);
      }
      assert ParseDirective(empty) == NoDirective;
      TextTurnText(apiKey, prompt, voice, mode, replies);
    }
  }

  /** The follow-up a directive sends: nothing without a directive; one
      image generation with the captured prompt in its fixed wrapper; or the
      video job with the captured prompt, then the download exactly when the
      job returned a link. */
  lemma FollowDirectiveRequests(apiKey: string, d: Directive, text: string, sources: Option<seq<WebSource>>, replies: Replies)
    ensures var f := FollowDirective(apiKey, d, text, sources, replies);
      && f.webSources == sources
      && (d.NoDirective? ==> f.text == text && f.calls == [] && f.imageUrl.None? && f.videoUrl.None?)
    ensures var f := FollowDirective(apiKey, d, text, sources, replies);
      d.ImageDirective? ==>
        && f.calls == [GenerateImage(FlashImageModel, ImagePrompt(d.prompt))]
        && f.text == d.visible && f.videoUrl.None?
        && f.imageUrl == (if replies.image.ImageReady? then FirstInlineUrl(PartsOrNone(replies.image.parts)) else None)
    ensures var f := FollowDirective(apiKey, d, text, sources, replies);
      d.VideoDirective? ==>
        && f.imageUrl.None?
        && 1 <= |f.calls| <= 2 && f.calls[0] == GenerateVideo(VideoModel, d.prompt, "720p", "16:9")
        && (|f.calls| == 2 <==> replies.video.VideoDone? && Truthy(replies.video.downloadLink))
        && (|f.calls| == 2 ==> f.calls[1] == FetchVideo(replies.video.downloadLink.value + "&key=" + apiKey))
        && f.text == (if VideoFails(replies.video) then d.visible + VideoFailureNote else d.visible)
    ensures var f := FollowDirective(apiKey, d, text, sources, replies);
      d.VideoDirective? ==>
        && (f.videoUrl.Some? <==> replies.video.VideoDone? && Truthy(replies.video.downloadLink) && replies.video.download.Downloaded?)
        && (f.videoUrl.Some? ==> f.videoUrl.value == replies.video.download.dataUrl)
  {
  }

  /** What a media branch makes of its reply: a non-empty text, no follow-up,
      no citations and no video; only an edit yields an image, its last
      inline part. A text turn takes its citations from the grounding chunks. */
  lemma AfterPrimaryShape(apiKey: string, b: Branch, reply: PrimaryReply, replies: Replies)
    requires reply.PrimaryReady?
    ensures var r := AfterPrimary(apiKey, b, reply, replies);
      && (b != TextGeneration ==> r.calls == [] && r.webSources.None? && r.videoUrl.None? && r.text != "")
      && (b == ImageEdit ==> r.imageUrl == LastInlineUrl(PartsOrNone(reply.parts)))
      && (b == VideoAnalysis || b == ImageAnalysis ==> r.imageUrl.None?)
      && (b == TextGeneration ==> r.webSources == WebSourcesOf(reply.groundingChunks))
  {
    if b == TextGeneration {
      var answer := OrElse(reply.text, "System Error: Empty response received.");
      FollowDirectiveRequests(apiKey, ParseDirective(answer), answer, WebSourcesOf(reply.groundingChunks), replies);
    }
  }

  /** The text, video and citations after a directive depend only on the
      video reply. */
  lemma FollowDirectiveText(apiKey: string, d: Directive, text: string, sources: Option<seq<WebSource>>, r1: Replies, r2: Replies)
    requires r1.video == r2.video
    ensures var f1 := FollowDirective(apiKey, d, text, sources, r1);
      var f2 := FollowDirective(apiKey, d, text, sources, r2);
      && f1.text == f2.text && f1.videoUrl == f2.videoUrl && f1.webSources == f2.webSources == sources
      && f1.text == (match d
                     case NoDirective => text
                     case VideoDirective(_, visible) => if VideoFails(r1.video) then visible + VideoFailureNote else visible
                     case ImageDirective(_, visible) => visible)
      && (d.NoDirective? ==> f1.calls == [])
      && (d.ImageDirective? ==> f1.videoUrl.None?)
  {
  }

  /** Image generation and speech synthesis are best effort: whatever they
      reply, the turn succeeds with the same text, video and citations. */
  lemma FollowUpFailuresContained(apiKey: string, prompt: string, voice: bool, mode: AIMode, media: Option<Media>, r1: Replies, r2: Replies)
    requires r1.primary == r2.primary && r1.video == r2.video
    ensures var x1 := Respond(apiKey, prompt, voice, mode, media, r1);
      var x2 := Respond(apiKey, prompt, voice, mode, media, r2);
      && x1.result.Success? == x2.result.Success?
      && (x1.result.Success? ==>
            && x1.result.value.text == x2.result.value.text
            && x1.result.value.videoUrl == x2.result.value.videoUrl
            && x1.result.value.webSources == x2.result.value.webSources)
  {
    if apiKey != "" && r1.primary.PrimaryReady? {
      var b := SelectBranch(prompt, media);
      if b == TextGeneration {
        var answer := OrElse(r1.primary.text, "System Error: Empty response received.");
        FollowDirectiveText(apiKey, ParseDirective(answer), answer, WebSourcesOf(r1.primary.groundingChunks), r1, r2);
      }
      var d1 := AfterPrimary(apiKey, b, r1.primary, r1);
      var d2 := AfterPrimary(apiKey, b, r2.primary, r2);
      assert d1.text == d2.text && d1.videoUrl == d2.videoUrl && d1.webSources == d2.webSources;
    }
  }

  /** In a text turn the visible text is the answer with its directive tag
      cut out; a failed video job appends the failure note to it, and any
      other outcome of the follow-up leaves it as it is. */
  lemma TextTurnText(apiKey: string, prompt: string, voice: bool, mode: AIMode, replies: Replies)
    requires apiKey != "" && replies.primary.PrimaryReady?
    ensures var answer := OrElse(replies.primary.text, "System Error: Empty response received.");
      var d := ParseDirective(answer);
      var x := Respond(apiKey, prompt, voice, mode, None, replies);
      && x.result.Success?
      && x.result.value.webSources == WebSourcesOf(replies.primary.groundingChunks)
      && (d.NoDirective? ==> x.result.value.text == answer && |x.calls| == 1 + (if voice then 1 else 0))
      && (d.VideoDirective? && VideoFails(replies.video) ==> x.result.value.text == d.visible + VideoFailureNote)
      && (d.VideoDirective? && !VideoFails(replies.video) ==> x.result.value.text == d.visible)
      && (d.ImageDirective? ==> x.result.value.text == d.visible && x.result.value.videoUrl.None?)
  {
    var answer := OrElse(replies.primary.text, "System Error: Empty response received.");
    FollowDirectiveText(apiKey, ParseDirective(answer), answer, WebSourcesOf(replies.primary.groundingChunks), replies, replies);
    var draft := AfterPrimary(apiKey, TextGeneration, replies.primary, replies);
    assert draft == FollowDirective(apiKey, ParseDirective(answer), answer, WebSourcesOf(replies.primary.groundingChunks), replies);
  }

  /** A video job that fails changes the turn only by the failure note. */
  lemma VideoFailureAnnotated(apiKey: string, prompt: string, voice: bool, mode: AIMode, replies: Replies, link: Option<string>, dataUrl: string)
    requires apiKey != "" && replies.primary.PrimaryReady?
    requires ParseDirective(OrElse(replies.primary.text, "System Error: Empty response received.")).VideoDirective?
    ensures var failed := Respond(apiKey, prompt, voice, mode, None, replies.(video := VideoFailed));
      var done := Respond(apiKey, prompt, voice, mode, None, replies.(video := VideoDone(link, Downloaded(dataUrl))));
      && failed.result.Success? && done.result.Success?
      && failed.result.value.text == done.result.value.text + VideoFailureNote
      && failed.result.value.videoUrl.None?
      && (Truthy(link) <==> done.result.value.videoUrl == Some(dataUrl))
  {
    TextTurnText(apiKey, prompt, voice, mode, replies.(video := VideoFailed));
    TextTurnText(apiKey, prompt, voice, mode, replies.(video := VideoDone(link, Downloaded(dataUrl))));
  }

  /** Edit keywords match as plain substrings: asking what an address is
      routes an image to the edit model, because "address" contains "add". */
  lemma AddressCountsAsEdit(prompt: string, image: Media)
    requires prompt == "What is this address?" && !StartsWith(image.mimeType, "video/")
    ensures SelectBranch(prompt, Some(image)) == ImageEdit
  {
    var low := Lower(prompt);
    assert low[13] == 'a' && low[14] == 'd' && low[15] == 'd';
    assert low[13..16] == EditKeywords[1];
    assert OccursAt(low, EditKeywords[1], 13);
  }

  /** A text lacking the letters d, r, c, f, y, k, u and b contains no edit
      keyword. */
  lemma NoKeywordWithoutLetters(low: string)
    requires 'd' !in low && 'r' !in low && 'c' !in low && 'f' !in low
    requires 'y' !in low && 'k' !in low && 'u' !in low && 'b' !in low
    ensures forall k :: 0 <= k < |EditKeywords| ==> !Contains(low, EditKeywords[k])
  {
    MissingLetter(low, EditKeywords[0], 'd');
    MissingLetter(low, EditKeywords[1], 'd');
    MissingLetter(low, EditKeywords[2], 'r');
    MissingLetter(low, EditKeywords[3], 'c');
    MissingLetter(low, EditKeywords[4], 'f');
    MissingLetter(low, EditKeywords[5], 'y');
    MissingLetter(low, EditKeywords[6], 'k');
    MissingLetter(low, EditKeywords[7], 'u');
    MissingLetter(low, EditKeywords[8], 'b');
  }

  lemma AnimalLacksLetters(prompt: string)
    requires prompt == "what is this animal"
    ensures 'd' !in prompt && 'r' !in prompt && 'c' !in prompt && 'f' !in prompt
    ensures 'y' !in prompt && 'k' !in prompt && 'u' !in prompt && 'b' !in prompt
    ensures forall i :: 0 <= i < |prompt| ==> !('A' <= prompt[i] <= 'Z')
  {
  }

  /** A question that contains none of the keywords is analysed, not edited. */
  lemma QuestionIsAnalysis(prompt: string, image: Media)
    requires prompt == "what is this animal" && !StartsWith(image.mimeType, "video/")
    ensures SelectBranch(prompt, Some(image)) == ImageAnalysis
  {
    AnimalLacksLetters(prompt);
    LowerOfLowerCase(prompt);
    NoKeywordWithoutLetters(Lower(prompt));
  }

  /** The directive step of a text answer: the text becomes the directive's
      visible text and the directive's follow-up call is issued. */
  method FollowDirectiveStep(apiKey: string, directive: Directive, answer: string, sources: Option<seq<WebSource>>, replies: Replies)
    returns (d: Draft)
    ensures d == FollowDirective(apiKey, directive, answer, sources, replies)
  {
    var text := answer;
    var calls: seq<Request> := [];
    var imageUrl: Option<string> := None;
    var videoUrl: Option<string> := None;
    match directive {
      case NoDirective =>
      case VideoDirective(videoPrompt, visible) =>
        text := visible;
        calls := calls + [GenerateVideo(VideoModel, videoPrompt, "720p", "16:9")];
        match replies.video {
          case VideoFailed =>
            text := text + VideoFailureNote;
          case VideoDone(link, download) =>
            if Truthy(link) {
              calls := calls + [FetchVideo(link.value + "&key=" + apiKey)];
              match download {
                case DownloadFailed =>
                  text := text + VideoFailureNote;
                case Downloaded(dataUrl) =>
                  videoUrl := Some(dataUrl);
              }
            }
        }
      case ImageDirective(imagePrompt, visible) =>
        text := visible;
        calls := calls + [GenerateImage(FlashImageModel, ImagePrompt(imagePrompt))];
        if replies.image.ImageReady? {
          imageUrl := FirstInlineImage(PartsOrNone(replies.image.parts));
        }
    }
    d := Draft(text, imageUrl, videoUrl, sources, calls);
  }

  /** Reading the primary reply in the branch the turn took. */
  method ReadPrimaryReply(apiKey: string, branch: Branch, reply: PrimaryReply, replies: Replies) returns (d: Draft)
    requires reply.PrimaryReady?
    ensures d == AfterPrimary(apiKey, branch, reply, replies)
  {
    var text := "";
    var imageUrl: Option<string> := None;
    if branch == VideoAnalysis {
      d := Draft(OrElse(reply.text, "Video analysis complete."), None, None, None, []);
    } else if branch == ImageEdit {
      if reply.parts.Some? {
        text, imageUrl := CollectEditParts(reply.parts.value);
      }
      if text == "" {
        text := "Image edit complete.";
      }
      d := Draft(text, imageUrl, None, None, []);
    } else if branch == ImageAnalysis {
      d := Draft(OrElse(reply.text, "Analysis complete."), None, None, None, []);
    } else {
      text := OrElse(reply.text, "System Error: Empty response received.");
      var webSources: Option<seq<WebSource>> := None;
      if reply.groundingChunks.Some? {
        webSources := Some(CollectSources(reply.groundingChunks.value));
      }
      d := FollowDirectiveStep(apiKey, ParseDirective(text), text, webSources, replies);
    }
  }

  /** The router step by step, as the service runs it: key check, primary
      call, branch-specific reading of the reply, directive follow-up and
      speech synthesis. It issues exactly the requests `Respond` records and
      returns the same outcome. */
  method SendMessageToGemini(apiKey: string, prompt: string, isVoiceMode: bool, mode: AIMode, media: Option<Media>, replies: Replies)
    returns (x: Exchange<GeminiResponse>)
    ensures x == Respond(apiKey, prompt, isVoiceMode, mode, media, replies)
  {
    if apiKey == "" {
      return Exchange(Failure(MissingApiKey), []);
    }
    var branch := SelectBranch(prompt, media);
    var calls := [PrimaryRequest(branch, prompt, isVoiceMode, mode, media)];
    if replies.primary.PrimaryFailed? {
      return Exchange(Failure(RemoteError), calls);
    }
    var draft := ReadPrimaryReply(apiKey, branch, replies.primary, replies);
    calls := calls + draft.calls;
    var audioData: Option<string> := None;
    if isVoiceMode && draft.text != "" {
      calls := calls + [Speak(SpeechModel, draft.text, SpeechVoice)];
      if replies.speech.SpeechReady? {
        audioData := FirstPartAudio(replies.speech.parts);
      }
    }
    x := Exchange(Success(GeminiResponse(draft.text, draft.imageUrl, draft.videoUrl, audioData, draft.webSources)), calls);
  }
}
