/** The voice command node (components/VoiceControl.tsx): a recognised
    utterance is trimmed and lower-cased, looked up in a table of exact
    phrases, and otherwise tried against an ordered list of substring
    heuristics; at most one action results. Opening a URL and calling the
    local helper service are effects outside the model and appear as the
    action chosen; the screen recorder the actions drive is modelled as
    state. */
module VoiceCommands {
  import opened Types
  import opened JsString

  datatype Action =
    | OpenUrl(url: string)
    | CallLocalHelper(path: string)
    | StartCapture
    | StopCapture

  /** An exact phrase and the action it runs. */
  datatype Command = Command(phrase: string, action: Action)

  /** A heuristic fires when the text contains each of its words. */
  datatype Heuristic = Heuristic(words: seq<string>, action: Action)

  const YouTube := "https://youtube.com"
  const Google := "https://google.com"
  const GitHub := "https://github.com"
  const LaunchArduino := "http://localhost:5000/launch?app=arduino"
  const LaunchCode := "http://localhost:5000/launch?app=code"
  const Shutdown := "http://localhost:5000/shutdown"
  const Restart := "http://localhost:5000/restart"
  const Lock := "http://localhost:5000/lock"

  /** The exact-phrase table. */
  const Commands: seq<Command> := [
    Command("open youtube", OpenUrl(YouTube)),
    Command("open google", OpenUrl(Google)),
    Command("open github", OpenUrl(GitHub)),
    Command("open arduino ide", CallLocalHelper(LaunchArduino)),
    Command("open code", CallLocalHelper(LaunchCode)),
    Command("open vs code", CallLocalHelper(LaunchCode)),
    Command("start screen recording", StartCapture),
    Command("stop recording", StopCapture),
    Command("shutdown pc", CallLocalHelper(Shutdown)),
    Command("restart pc", CallLocalHelper(Restart)),
    Command("lock pc", CallLocalHelper(Lock))
  ]

  /** The fallback heuristics, in the order they are tried. */
  const Heuristics: seq<Heuristic> := [
    Heuristic(["open", "youtube"], OpenUrl(YouTube)),
    Heuristic(["open", "github"], OpenUrl(GitHub)),
    Heuristic(["open", "google"], OpenUrl(Google)),
    Heuristic(["start", "record"], StartCapture),
    Heuristic(["stop", "record"], StopCapture),
    Heuristic(["shutdown"], CallLocalHelper(Shutdown))
  ]

  /** The action of the table entry whose phrase is exactly `text`. */
  function Lookup(table: seq<Command>, text: string): (r: Option<Action>)
    ensures r.None? <==> forall k :: 0 <= k < |table| ==> table[k].phrase != text
    ensures r.Some? ==> exists k :: 0 <= k < |table| && table[k].phrase == text && table[k].action == r.value
  {
    if table == [] then None
    else if table[0].phrase == text then Some(table[0].action)
    else
      var r := Lookup(table[1..], text);
      assert forall k :: 1 <= k < |table| ==> table[k] == table[1..][k - 1];
      r
  }

  predicate Fires(text: string, h: Heuristic) {
    forall w :: w in h.words ==> Contains(text, w)
  }

  /** The action of the first heuristic that fires. */
  function FirstFiring(text: string, hs: seq<Heuristic>): (r: Option<Action>)
    ensures r.None? <==> forall k :: 0 <= k < |hs| ==> !Fires(text, hs[k])
    ensures r.Some? ==> exists k :: (0 <= k < |hs| && Fires(text, hs[k]) && hs[k].action == r.value
      && forall j :: 0 <= j < k ==> !Fires(text, hs[j]))
  {
    if hs == [] then None
    else if Fires(text, hs[0]) then Some(hs[0].action)
    else
      var r := FirstFiring(text, hs[1..]);
      assert forall k :: 1 <= k < |hs| ==> hs[k] == hs[1..][k - 1];
      assert r.Some? ==> exists k :: (0 <= k < |hs| && Fires(text, hs[k]) && hs[k].action == r.value
        && forall j :: 0 <= j < k ==> !Fires(text, hs[j])) by {
        if r.Some? {
          var k :| 0 <= k < |hs| - 1 && Fires(text, hs[1..][k]) && hs[1..][k].action == r.value
            && forall j :: 0 <= j < k ==> !Fires(text, hs[1..][j]);
          assert Fires(text, hs[k + 1]);
          assert forall j :: 1 <= j < k + 1 ==> !Fires(text, hs[j]) by {
            forall j | 1 <= j < k + 1 ensures !Fires(text, hs[j]) {
              assert hs[j] == hs[1..][j - 1];
            }
          }
        }
      }
      r
  }

  /** `handleCommand`: an exact phrase runs its own action and nothing else;
      otherwise the first heuristic that fires decides; otherwise nothing
      happens. */
  function HandleCommand(text: string): (r: Option<Action>)
    ensures (exists k :: 0 <= k < |Commands| && Commands[k].phrase == text) ==> r == Lookup(Commands, text)
    ensures (forall k :: 0 <= k < |Commands| ==> Commands[k].phrase != text) ==> r == FirstFiring(text, Heuristics)
    ensures r.None? <==>
      (forall k :: 0 <= k < |Commands| ==> Commands[k].phrase != text)
      && (forall k :: 0 <= k < |Heuristics| ==> !Fires(text, Heuristics[k]))
  {
    match Lookup(Commands, text)
    case Some(a) => Some(a)
    case None => FirstFiring(text, Heuristics)
  }

  /** What `onresult` makes of a transcript before matching. */
  function Normalize(transcript: string): (r: string)
    ensures |r| <= |transcript|
    ensures r == [] <==> forall k :: 0 <= k < |transcript| ==> IsSpace(transcript[k])
    ensures r == [] || (!IsSpace(r[0]) && !IsSpace(r[|r| - 1]))
    ensures forall k :: 0 <= k < |r| ==> !('A' <= r[k] <= 'Z')
  {
    Lower(Trim(transcript))
  }

  /** Normalising a normalised utterance changes nothing, so the matcher
      sees the same text however often it is cleaned. */
  lemma NormalizeIdempotent(transcript: string)
    ensures Normalize(Normalize(transcript)) == Normalize(transcript)
  {
    var t := Trim(transcript);
    var n := Lower(t);
    if n != [] {
      assert n[0] == LowerChar(t[0]) && n[|n| - 1] == LowerChar(t[|t| - 1]);
    }
    TrimTrimmed(n);
    LowerLower(t);
  }

  /** No two table entries share a phrase, as the keys of an object cannot. */
  lemma PhrasesDistinct()
    ensures forall i, j :: 0 <= i < j < |Commands| ==> Commands[i].phrase != Commands[j].phrase
  {
  }

  /** Every phrase of the table runs exactly its own action. */
  lemma {:induction false} ExactPhraseRunsItsAction(k: nat)
    requires k < |Commands|
    ensures HandleCommand(Commands[k].phrase) == Some(Commands[k].action)
  {
    PhrasesDistinct();
    var text := Commands[k].phrase;
    var r := Lookup(Commands, text);
    assert r.Some?;
    var j :| 0 <= j < |Commands| && Commands[j].phrase == text && Commands[j].action == r.value;
    assert j == k;
  }

  /** "open code" and "open vs code" launch the same editor. */
  lemma EditorAliases(code: string, vsCode: string)
    requires code == "open code" && vsCode == "open vs code"
    ensures HandleCommand(code) == HandleCommand(vsCode) == Some(CallLocalHelper(LaunchCode))
  {
    assert Commands[4].phrase == code && Commands[5].phrase == vsCode;
    ExactPhraseRunsItsAction(4);
    ExactPhraseRunsItsAction(5);
  }

  /** The three power phrases reach the local helper's shutdown, restart and
      lock routes. */
  lemma PowerPhrases(shutdown: string, restart: string, lock: string)
    requires shutdown == "shutdown pc" && restart == "restart pc" && lock == "lock pc"
    ensures HandleCommand(shutdown) == Some(CallLocalHelper(Shutdown))
    ensures HandleCommand(restart) == Some(CallLocalHelper(Restart))
    ensures HandleCommand(lock) == Some(CallLocalHelper(Lock))
  {
    assert Commands[8].phrase == shutdown && Commands[9].phrase == restart && Commands[10].phrase == lock;
    ExactPhraseRunsItsAction(8);
    ExactPhraseRunsItsAction(9);
    ExactPhraseRunsItsAction(10);
  }

  /** The heuristics test substrings in a fixed order: text that asks to
      open both GitHub and Google, without mentioning YouTube, opens GitHub. */
  lemma GitHubBeforeGoogle(text: string)
    requires forall k :: 0 <= k < |Commands| ==> Commands[k].phrase != text
    requires Contains(text, "open") && Contains(text, "github") && Contains(text, "google")
    requires !Contains(text, "youtube")
    ensures HandleCommand(text) == Some(OpenUrl(GitHub))
  {
    assert !Fires(text, Heuristics[0]) by { assert "youtube" in Heuristics[0].words; }
    assert Fires(text, Heuristics[1]);
  }

  /** Text without the words open, start, stop and shutdown triggers
      nothing unless it is one of the exact phrases. */
  lemma NoKeywordNoAction(text: string)
    requires forall k :: 0 <= k < |Commands| ==> Commands[k].phrase != text
    requires !Contains(text, "open") && !Contains(text, "start") && !Contains(text, "stop") && !Contains(text, "shutdown")
    ensures HandleCommand(text) == None
  {
    forall k | 0 <= k < |Heuristics| ensures !Fires(text, Heuristics[k]) {
      assert Heuristics[k].words[0] in Heuristics[k].words;
    }
  }

  /** The state of a media recorder. */
  datatype RecorderState = Inactive | Recording | Paused

  /** A recorded chunk of the screen capture. */
  datatype Chunk = Chunk(size: nat)

  class CommandNode {
    var lastText: string
    var recorder: Option<RecorderState>
    var recordedChunks: seq<Chunk>

    /** Only chunks with data are ever buffered. */
    ghost predicate Valid()
      reads this
    {
      forall k :: 0 <= k < |recordedChunks| ==> recordedChunks[k].size > 0
    }

    constructor()
      ensures Valid()
      ensures lastText == "" && recorder.None? && recordedChunks == []
    {
      lastText := "";
      recorder := None;
      recordedChunks := [];
    }

    /** `startScreenRecording`: once the display is granted, a fresh recorder
        starts with an empty buffer; a refusal changes nothing. */
    method StartScreenRecording(granted: bool)
      requires Valid()
      modifies this
      ensures Valid()
      ensures granted ==> recorder == Some(Recording) && recordedChunks == []
      ensures !granted ==> recorder == old(recorder) && recordedChunks == old(recordedChunks)
      ensures lastText == old(lastText)
    {
      if granted {
        recordedChunks := [];
        recorder := Some(Recording);
      }
    }

    /** `stopScreenRecording`: a recorder that exists and is not inactive is
        stopped; otherwise nothing happens. */
    method StopScreenRecording()
      requires Valid()
      modifies this
      ensures Valid()
      ensures old(recorder).Some? && old(recorder).value != Inactive ==> recorder == Some(Inactive)
      ensures !(old(recorder).Some? && old(recorder).value != Inactive) ==> recorder == old(recorder)
      ensures lastText == old(lastText) && recordedChunks == old(recordedChunks)
    {
      if recorder.Some? && recorder.value != Inactive {
        recorder := Some(Inactive);
      }
    }

    /** `ondataavailable`: chunks with data are buffered, empty ones dropped. */
    method OnRecordedData(chunk: Chunk)
      requires Valid()
      modifies this
      ensures Valid()
      ensures recordedChunks == old(recordedChunks) + (if chunk.size > 0 then [chunk] else [])
      ensures lastText == old(lastText) && recorder == old(recorder)
    {
      if chunk.size > 0 {
        recordedChunks := recordedChunks + [chunk];
      }
    }

    /** `onresult`: the trimmed transcript is shown, the normalised one is
        matched, and the one action it selects is run; the recording actions
        act on the recorder, the others are reported to the caller. */
    method OnResult(transcript: string, displayGranted: bool) returns (action: Option<Action>)
      requires Valid()
      modifies this
      ensures Valid()
      ensures lastText == Trim(transcript)
      ensures action == HandleCommand(Normalize(transcript))
      ensures action == Some(StartCapture) && displayGranted ==> recorder == Some(Recording) && recordedChunks == []
      ensures action == Some(StopCapture) && old(recorder).Some? && old(recorder).value != Inactive ==>
        recorder == Some(Inactive)
      ensures action == Some(StartCapture) && !displayGranted ==>
        recorder == old(recorder) && recordedChunks == old(recordedChunks)
      ensures action == Some(StopCapture) ==> recordedChunks == old(recordedChunks)
      ensures action == Some(StopCapture) && !(old(recorder).Some? && old(recorder).value != Inactive) ==>
        recorder == old(recorder)
      ensures (action.None? || action.value.OpenUrl? || action.value.CallLocalHelper?) ==>
        recorder == old(recorder) && recordedChunks == old(recordedChunks)
    {
      var text := Trim(transcript);
      lastText := text;
      action := HandleCommand(Lower(text));
      if action == Some(StartCapture) {
        StartScreenRecording(displayGranted);
      } else if action == Some(StopCapture) {
        StopScreenRecording();
      }
    }
  }
}
