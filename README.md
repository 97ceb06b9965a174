# SHROVATE core in Dafny

SHROVATE is a browser dashboard that talks to a remote generative-AI service.
This project models its deterministic core and proves properties of it. The
core has three parts:

- **The response router** (`services/geminiService.ts`). It picks a remote
  capability for each turn: video analysis, image edit, image analysis or
  text generation. In text generation it picks the model and config of the
  reasoning tier (turbo, standard, thinking). It also:
  - finds the `[GENERATE_VIDEO: …]` and `[GENERATE_IMAGE: …]` directives in
    the answer and follows the winning one;
  - collects web citations from the grounding chunks;
  - pulls text and images out of response parts;
  - fills in fixed fallback sentences;
  - contains the failures of follow-up calls;
  - requests speech only in voice mode.
- **The chat panel** (`components/ChatInterface.tsx`). It holds the session
  state (module `ChatSession`, class `Session`): an append-only conversation,
  the send guard, user-then-system pairing, attachments and dictation. Three
  helpers have their own modules:
  - `VoiceToggle`: the word-boundary regexes that switch voice mode;
  - `MediaCodec`: the byte copy after base64 decoding, 16-bit little-endian
    PCM reassembly, and the data-URL payload split;
  - `JsString`: the ECMAScript string operations the panel relies on
    (`trim`, ASCII `toLowerCase`, `includes`).
- **The voice command node** (`components/VoiceControl.tsx`, module
  `VoiceCommands`). It maps a normalised utterance to at most one action,
  first through an exact-phrase table and then through ordered substring
  heuristics. Its recorder guard and chunk filter are modelled as class
  state.

`Types` holds `Message`, `Sender` and `WebSource` from `types.ts`.

Remote calls are not executed. They are inputs: a `Replies` value says what
each remote call would return. Each entry point returns an `Exchange`, which
pairs its outcome with the list of requests it issued. Proofs about the
request log are therefore proofs about which remote calls happen.

`GeminiService.Respond` is the router as a function. The method
`GeminiService.SendMessageToGemini` builds the same answer step by step, as
the service does: it reassigns locals, scans parts in loops and breaks at
the first image. Its contract is proved equal to `Respond`.

`ChatSession.Session.HandleSend` splits the async `handleSend` at its await
into `BeginSend` and `FinishSend`. The object invariant `Valid` holds
throughout:
- the greeting comes first;
- operator and system messages alternate after it;
- buffered audio chunks are never empty.

## Model

| member | source | states |
|---|---|---|
| GeminiService.IsEditRequest | services/geminiService.ts:110-112 | true exactly when the lower-cased prompt contains one of the nine edit keywords as a plain substring |
| GeminiService.AnyKeyword | services/geminiService.ts:112 | `some(kw => s.includes(kw))`: true exactly when some keyword occurs somewhere in `s` |
| GeminiService.SelectBranch | services/geminiService.ts:91-155 | video analysis iff media whose MIME type starts with `video/`; image edit iff other media and a keyword in the lower-cased prompt; image analysis iff other media and no keyword; text generation iff no media |
| GeminiService.TextModeConfig | services/geminiService.ts:157-172 | turbo calls `gemini-2.5-flash-lite`, thinking `gemini-3-pro-preview`, standard `gemini-2.5-flash`; the search tool is on iff the mode is standard; a thinking budget is set iff the mode is thinking; that budget is 32768; never both |
| GeminiService.PrimaryRequest | services/geminiService.ts:97-179 | the primary request's kind follows the branch; media branches send the attached media; video and image analysis use `gemini-3-pro-preview` and the edit `gemini-2.5-flash-image`; an empty prompt is replaced by the branch's default instruction; text generation sends the prompt with its tier's config; the voice persona follows voice mode |
| GeminiService.ModesUseDistinctModels | services/geminiService.ts:157-172 | the three tiers use three different models (flash-lite, flash, pro): two modes share a model iff they are equal |
| GeminiService.LastInlineUrl | services/geminiService.ts:127-136 | none iff no part carries inline data; otherwise the data URL of an inline part after which no part carries inline data (the last one wins) |
| GeminiService.FirstInlineUrl | services/geminiService.ts:255-262 | none iff no part carries inline data; otherwise the data URL of the first inline part |
| GeminiService.CollectEditParts | services/geminiService.ts:127-136 | the loop over the edit reply's parts yields the in-order concatenation of text parts and the last inline part's data URL |
| GeminiService.EditTextEmpty | services/geminiService.ts:127-136 | the edit text is empty exactly when every part carries inline data or an empty text, which is when "Image edit complete." takes over |
| GeminiService.EditTextAppend | services/geminiService.ts:128-135 | the text of concatenated part lists is the concatenation of their texts |
| GeminiService.FirstInlineImage | services/geminiService.ts:255-262 | the loop that breaks at the first inline part yields `FirstInlineUrl` |
| GeminiService.CollectSources | services/geminiService.ts:184-191 | no more citations than chunks; every kept citation has a non-empty uri; empty iff no chunk has a truthy uri |
| GeminiService.CollectSourcesAppend | services/geminiService.ts:184-191 | the map-and-filter distributes over concatenation, so chunk order is kept |
| GeminiService.CollectSourcesKeeps | services/geminiService.ts:184-191 | every chunk with a truthy uri appears, as `{uri, title}`, among the citations |
| GeminiService.WebSourcesOf | services/geminiService.ts:184-191 | citations are absent iff the reply has no grounding chunks, and otherwise are the filtered map of the chunks |
| GeminiService.FirstPartAudio | services/geminiService.ts:285 | audio is present iff the first part of the speech reply carries inline data, and is that data |
| GeminiService.AfterPrimaryShape | services/geminiService.ts:97-191 | a media branch yields non-empty text, no follow-up, no citations and no video, and only the edit yields an image (its last inline part); a text turn takes its citations from the grounding chunks |
| GeminiService.FollowDirectiveRequests | services/geminiService.ts:201-265 | no directive: no follow-up and the text unchanged; image directive: exactly one image generation with the captured prompt in the fixed wrapper, the stripped text, the first inline image of the reply; video directive: first the video job with the captured prompt at 720p 16:9, then the download iff the job returned a truthy link, the failure note iff the job or the download fails, the video iff it downloaded |
| GeminiService.Respond | services/geminiService.ts:39-296 | a missing key fails with no remote call; otherwise the first request is the primary call of the selected branch; the turn fails iff the key is missing or the primary call failed, and then no follow-up is issued |
| GeminiService.SendMessageToGemini | services/geminiService.ts:39-296 | the step-by-step router issues exactly the requests of `Respond` and returns the same outcome |
| GeminiService.ReadPrimaryReply | services/geminiService.ts:97-191 | reading the primary reply per branch (fallback sentence, part scan, citations, directive) agrees with `AfterPrimary` |
| GeminiService.FollowDirectiveStep | services/geminiService.ts:201-265 | acting on the directive (video job and download, or image generation) agrees with `FollowDirective` |
| GeminiService.EmptyReplyFallbacks | services/geminiService.ts:97-181 | an empty reply becomes "Video analysis complete.", "Image edit complete.", "Analysis complete." or "System Error: Empty response received." by branch, and a non-empty one is kept; the text-branch fallback triggers no follow-up |
| GeminiService.MediaTurnHasText | services/geminiService.ts:97-150 | a successful media turn always has non-empty text, no citations and no video |
| GeminiService.TextTurnText | services/geminiService.ts:175-240 | in a text turn the citations come from the grounding chunks; without a directive the text is the answer; with a video directive it is the stripped text, plus the failure note exactly when the job or its download fails; with an image directive it is the stripped text |
| GeminiService.VideoFailureAnnotated | services/geminiService.ts:224-240 | a failed video job gives exactly the successful turn's text followed by "\n[SYSTEM ERROR: Video generation protocol failed.]", with no video; a finished job yields the video iff its download link is truthy |
| GeminiService.FollowDirectiveText | services/geminiService.ts:201-265 | after a directive, text, video and citations depend only on the video reply; no directive means no follow-up call; an image directive never yields a video |
| GeminiService.FollowUpFailuresContained | services/geminiService.ts:263-288 | whatever image generation and speech synthesis reply, the turn succeeds or fails alike, with the same text, video and citations |
| GeminiService.FollowDirectiveSpeaksNot | services/geminiService.ts:201-265 | directive follow-ups never request speech |
| GeminiService.SpeechCountAppend | services/geminiService.ts:270-284 | speech requests in a concatenated log add up |
| GeminiService.SpeechGate | services/geminiService.ts:270-288 | a successful turn requests speech once when voice mode is on and the text is non-empty, and never otherwise; audio is returned only then, and only when synthesis answered |
| GeminiService.TranscribeAudio | services/geminiService.ts:19-37 | a missing key fails with no call; otherwise exactly one transcription request with the audio and the fixed instruction; success iff the call answered, yielding its text |
| GeminiService.AddressCountsAsEdit | services/geminiService.ts:110-114 | "What is this address?" with an image routes to image edit, because "address" contains "add" |
| GeminiService.QuestionIsAnalysis | services/geminiService.ts:110-150 | "what is this animal" with an image routes to image analysis |
| GeminiService.NoKeywordWithoutLetters | services/geminiService.ts:111-112 | text lacking the letters d, r, c, f, y, k, u and b contains none of the edit keywords |
| Directives.MatchAt | services/geminiService.ts:194-199 | the tag regex anchored at an index: any result is a match starting there, and every match starting there is the result (the lazy capture is unique) |
| Directives.FindTag | services/geminiService.ts:194-199 | `text.match`: a result is a match, it is the leftmost, and there is none iff no match exists |
| Directives.CaptureShape | services/geminiService.ts:194-199 | a capture holds no `]` and no line terminator, and does not begin with whitespace |
| Directives.SpansUnique | services/geminiService.ts:194-199 | two matches of one regex at the same index are identical |
| Directives.ParseDirective | services/geminiService.ts:194-204 | no directive iff neither regex matches; a video directive iff the video regex matches (video wins); the prompt is the capture of the leftmost match of the winning regex, and the visible text is the answer with that match cut out and then trimmed; the prompt holds no `]` or newline and starts after the whitespace; the visible text is shorter than the answer |
| Directives.StripTag | services/geminiService.ts:203-204 | removing a match and trimming gives text at least the match's length shorter, without surrounding whitespace |
| Directives.CutKeepsSpans | services/geminiService.ts:203-204 | removing the first video tag keeps every image match that lies outside it |
| Directives.TrimKeepsSpans | services/geminiService.ts:203-204 | trimming keeps every tag match |
| Directives.ImageTagSurvivesVideo | services/geminiService.ts:201-245 | with both tags present and apart, the video tag is acted on and the image tag is still found in the visible text |
| Directives.SingleImageTag | services/geminiService.ts:242-245 | for an answer with one image tag, the captured prompt is exactly the text after the whitespace, and the visible text is the surroundings trimmed |
| Directives.ImageDirectiveExample | services/geminiService.ts:242-245 | "... [GENERATE_IMAGE: a circuit diagram] " gives the prompt "a circuit diagram" and the visible text "..." |
| MediaCodec.DecodeBase64 | components/ChatInterface.tsx:7-15 | a fresh byte array as long as the binary string whose i-th byte is the i-th char code |
| MediaCodec.BytesOfBinaryString | components/ChatInterface.tsx:7-15 | bytes survive the round trip through a binary string |
| MediaCodec.BinaryStringOfBytes | components/ChatInterface.tsx:7-15 | a binary string (codes below 256, as `atob` yields) survives the round trip through bytes |
| MediaCodec.Sample16 | components/ChatInterface.tsx:21 | the signed 16-bit value of a little-endian byte pair lies in [-32768, 32767] |
| MediaCodec.SampleRoundTrip | components/ChatInterface.tsx:21 | splitting a 16-bit sample into bytes and reassembling gives it back |
| MediaCodec.PairRoundTrip | components/ChatInterface.tsx:21 | reassembling a byte pair and splitting it again gives the pair back |
| MediaCodec.Samples | components/ChatInterface.tsx:21-24 | a byte payload of even length yields half as many frames, each a 16-bit sample |
| MediaCodec.SampleOfPair | components/ChatInterface.tsx:30-31 | frame i is the sample of bytes 2i and 2i+1 |
| MediaCodec.PcmRoundTrip | components/ChatInterface.tsx:21-31 | decoding the little-endian encoding of any list of 16-bit samples gives it back |
| MediaCodec.DecodePcm | components/ChatInterface.tsx:19-42 | no frames iff the payload has odd length (the caught RangeError); otherwise a fresh frame array equal to `Samples` of the bytes |
| MediaCodec.IndexOf | components/ChatInterface.tsx:50 | none iff the character is absent; otherwise its first position |
| MediaCodec.SecondField | components/ChatInterface.tsx:50 | `split(',')[1]`: none iff there is no comma; otherwise the comma-free text after the first comma, up to the next comma or the end |
| MediaCodec.PayloadRoundTrip | components/ChatInterface.tsx:206 | the payload split from `data:<mime>;base64,<data>` is `<data>` when the MIME type has no comma and the data is base64 text (section 4 of RFC 4648) |
| VoiceToggle.MatchEnd | components/ChatInterface.tsx:245-248 | a match of one alternative ends no earlier than it starts and within the text |
| VoiceToggle.MatchEndIsMatch | components/ChatInterface.tsx:245-248 | the greedy matcher ends at `e` iff the alternative's regex can match from the start to `e` |
| VoiceToggle.AlternativesWellFormed | components/ChatInterface.tsx:245-248 | both alternations are well formed (a gap is always followed by a non-space literal) |
| VoiceToggle.FoundAtAny | components/ChatInterface.tsx:245-248 | true iff some alternative matches at that position between word boundaries |
| VoiceToggle.TestFrom | components/ChatInterface.tsx:245-248 | true iff some alternative matches at or after that position between word boundaries |
| VoiceToggle.Test | components/ChatInterface.tsx:245-248 | `regex.test`: true iff some alternative matches somewhere between word boundaries |
| VoiceToggle.NextVoiceMode | components/ChatInterface.tsx:243-251 | an "on" match switches voice on even when an "off" phrase is present; otherwise an "off" match switches it off; otherwise the mode is kept |
| VoiceToggle.AbsentLetterNoMatch | components/ChatInterface.tsx:245-248 | an alternative needing a letter the text lacks never matches |
| VoiceToggle.ListenSwitchesOn | components/ChatInterface.tsx:245-247 | "listen" between non-word characters switches voice mode on |
| VoiceToggle.ListeningKeepsMode | components/ChatInterface.tsx:245-251 | "listening" fails the word boundary and leaves the mode unchanged |
| VoiceToggle.VoiceOnlyKeepsMode | components/ChatInterface.tsx:245-251 | "voice only" matches neither alternation and leaves the mode unchanged |
| ChatSession.KindOf | components/ChatInterface.tsx:202 | an attachment is a video iff its MIME type starts with `video/` |
| ChatSession.AttachmentOf | components/ChatInterface.tsx:202-212 | the attachment carries the data URL's second field as payload, the URL as preview, and the file's MIME type |
| ChatSession.AttachmentKindMatchesRoute | components/ChatInterface.tsx:202-258 | the panel's attachment kind agrees with the router: video attachments go to video analysis, image attachments to image edit or analysis |
| ChatSession.UserMessage | components/ChatInterface.tsx:228-235 | an operator message with the typed text; its image is set iff the attachment is an image, its video iff it is a video, both from the preview |
| ChatSession.ReplyMessage | components/ChatInterface.tsx:261-280 | a system message; flagged as an error iff the router threw, then with "ERROR: Connection to Gemini Core failed."; otherwise the response's text, media, audio and citations; the error message carries no media, audio or citations |
| ChatSession.AppendTranscript | components/ChatInterface.tsx:171 | a transcript replaces empty input and is joined to non-empty input by exactly one space |
| ChatSession.BlobSizePositive | components/ChatInterface.tsx:160-166 | when no buffered chunk is empty, the blob is empty iff nothing was buffered |
| ChatSession.PairedAppend | components/ChatInterface.tsx:237-280 | appending the message whose turn it is keeps operator and system messages alternating |
| ChatSession.Session.constructor | components/ChatInterface.tsx:59-70 | the panel starts with the greeting only, empty input, standard tier, voice off, nothing pending |
| ChatSession.Session.SetAiMode | components/ChatInterface.tsx:319 | sets the tier and nothing else |
| ChatSession.Session.SelectFile | components/ChatInterface.tsx:198-217 | a picked file becomes the attachment; no file changes nothing |
| ChatSession.Session.RemoveAttachment | components/ChatInterface.tsx:219 | clears the attachment and nothing else |
| ChatSession.Session.BeginSend | components/ChatInterface.tsx:222-251 | nothing changes iff the input is blank with no attachment, or a send or transcription is in progress; otherwise the operator message is appended, input and attachment are cleared, the panel is busy, the voice mode is toggled by the input, and the router is handed the new mode |
| ChatSession.Session.FinishSend | components/ChatInterface.tsx:253-283 | exactly one system message for the outcome is appended and the panel is no longer busy |
| ChatSession.Session.HandleSend | components/ChatInterface.tsx:222-284 | a send that proceeds adds the operator message and then the router's reply (or the connection error) computed with the new voice mode, leaving the tier, the transcription flag and the audio buffer as they were; a refused send changes nothing and issues no call |
| ChatSession.Session.OnRecorderStart | components/ChatInterface.tsx:156-158 | a new recorder starts with an empty chunk buffer |
| ChatSession.Session.OnAudioData | components/ChatInterface.tsx:160-162 | chunks with data are buffered, empty ones dropped |
| ChatSession.Session.OnRecorderStop | components/ChatInterface.tsx:164-168 | transcription starts iff something was buffered |
| ChatSession.Session.FinishTranscription | components/ChatInterface.tsx:166-177 | the transcript extends the input when transcription succeeds, a failure leaves it, and transcription ends either way |
| VoiceCommands.Lookup | components/VoiceControl.tsx:121-122 | none iff no entry has exactly that phrase; otherwise an entry's action for that phrase |
| VoiceCommands.FirstFiring | components/VoiceControl.tsx:126-131 | none iff no heuristic fires; otherwise the action of a firing heuristic with none firing before it |
| VoiceCommands.HandleCommand | components/VoiceControl.tsx:120-132 | a table phrase runs the table's action; any other text runs the first firing heuristic; no action iff neither applies |
| VoiceCommands.Normalize | components/VoiceControl.tsx:25-27 | the normalised utterance is no longer than the transcript, empty iff it is all whitespace, has no surrounding whitespace and no upper-case ASCII letter |
| VoiceCommands.NormalizeIdempotent | components/VoiceControl.tsx:25-27 | trimming and lower-casing twice equals doing it once |
| VoiceCommands.PhrasesDistinct | components/VoiceControl.tsx:106-118 | the 11 phrases are pairwise distinct |
| VoiceCommands.ExactPhraseRunsItsAction | components/VoiceControl.tsx:106-124 | each table phrase runs exactly its own entry's action |
| VoiceCommands.EditorAliases | components/VoiceControl.tsx:111-112 | "open code" and "open vs code" both launch `launch?app=code` |
| VoiceCommands.PowerPhrases | components/VoiceControl.tsx:115-117 | "shutdown pc", "restart pc" and "lock pc" reach `/shutdown`, `/restart` and `/lock` on the local helper |
| VoiceCommands.GitHubBeforeGoogle | components/VoiceControl.tsx:126-128 | text that says open, github and google but not youtube opens GitHub |
| VoiceCommands.NoKeywordNoAction | components/VoiceControl.tsx:120-132 | text that is no table phrase and lacks open, start, stop and shutdown runs no action |
| VoiceCommands.CommandNode.constructor | components/VoiceControl.tsx:10-13 | no text shown, no recorder, no chunks |
| VoiceCommands.CommandNode.StartScreenRecording | components/VoiceControl.tsx:73-99 | a granted display gives a recording recorder with an empty buffer; a refusal changes nothing |
| VoiceCommands.CommandNode.StopScreenRecording | components/VoiceControl.tsx:101-104 | stops the recorder iff it exists and is not inactive; otherwise nothing changes |
| VoiceCommands.CommandNode.OnRecordedData | components/VoiceControl.tsx:80-82 | chunks with data are buffered, empty ones dropped |
| VoiceCommands.CommandNode.OnResult | components/VoiceControl.tsx:24-28 | shows the trimmed transcript and runs exactly `HandleCommand` of the normalised one; a granted start capture records into an empty buffer and a refused one changes nothing; a stop capture keeps the buffer and stops only an existing, active recorder; every other outcome leaves recorder and buffer alone |
| JsString.Lower | components/ChatInterface.tsx:244 | same length, each character lower-cased |
| JsString.LowerLower | components/VoiceControl.tsx:27 | lower-casing is idempotent |
| JsString.Contains | services/geminiService.ts:112 | `includes`: true iff the substring occurs at some index |
| JsString.SkipSpaces | services/geminiService.ts:194 | `\s*`: the first non-whitespace index at or after the start, with only whitespace skipped |
| JsString.Trim | components/VoiceControl.tsx:25 | the result neither starts nor ends with whitespace, is empty iff the input is all whitespace, and is no longer than the input |
| JsString.TrimSlice | components/VoiceControl.tsx:25 | trimming keeps one contiguous slice and drops only whitespace around it |
| JsString.TrimTrimmed | components/VoiceControl.tsx:25 | trimming text without surrounding whitespace changes nothing |

## Left out

- The remote service (`generateContent`, `generateVideos`, `getVideosOperation`, the video `fetch`) is not called. Its replies are inputs (`Replies`), and the requests are recorded in the call log.
- The polling loop (services/geminiService.ts:219-222) waits on a timer with no bound. The model takes the job's final state as given.
- The system-instruction prompt text is left out. Only whether voice mode is on reaches the requests.
- The `/ 32768.0` float normalisation, `AudioContext` buffers and playback are floating point and browser audio. Only the integer sample reconstruction is modelled, and it assumes a little-endian host, as `Int16Array` does on every common platform.
- MediaCodec.DecodePcm: an empty payload gives an empty frame list. In the source, `createBuffer` with zero frames then throws inside the same `try`, so nothing plays either way; buffer creation is not modelled.
- The channel loop of `playPCMAudio` is collapsed to one channel, since `numChannels` is the constant 1.
- `atob`, `FileReader`, `Blob`, `MediaRecorder`, `getUserMedia`, `getDisplayMedia` and `SpeechRecognition` are browser I/O. Their results are inputs: a binary string, a data URL, chunks, a transcript, a granted flag.
- The `SpeechRecognition` restart in `onend` and `startListening`/`stopListening` are event wiring with no logic beyond a flag.
- The chat panel's `stopRecording` stops the recorder only when its state is `recording` (components/ChatInterface.tsx:189-195). The model has no recorder state for dictation, so that guard is not captured.
- The chat panel's `startRecording` gives up when a stop was requested while microphone access was pending (components/ChatInterface.tsx:151-154). The model has no request flag and does not capture this.
- Opening URLs and calling the local helper are effects. `HandleCommand` returns the chosen action instead.
- The file download on `onstop`, `downloadChatLog` and `downloadMedia` are file-save side effects.
- `Date.now` is a parameter (`now`, `later`), so ids are `Stamp(now)` values, not decimal strings.
- `toLocaleString` formatting is locale-dependent and is not modelled.
- JavaScript's single thread interleaves other events during the awaits of `handleSend` and `onstop`. The model runs each handler's two halves back to back.
- components/Dashboard.tsx, components/BootSequence.tsx and App.tsx are not part of this model. They are timers, mock data and view switching.
- JsString.Lower: only the ASCII letters are lower-cased, while `toLowerCase` maps all of Unicode. The results differ where a non-ASCII character lower-cases to ASCII. For example, U+212A KELVIN SIGN becomes `k`, so "MA\u212AE this red" with an image is an image edit in the source and an image analysis here, and "spea\u212A" turns voice mode on in the source but not here. Some characters also change length: U+0130 lower-cases to two code units, so "same length" does not hold for `toLowerCase`. Full Unicode case mapping tables are out of scope.
- VoiceCommands.Lookup: the table holds only its 11 phrases. In the source, `commands[text]` also finds inherited object keys such as `constructor` or `toString`. None of those keys contains a heuristic's words, so either way no action results.
- GeminiService.CollectSources: as the code does, an empty chunk list yields an empty citation list, not an absent one.
