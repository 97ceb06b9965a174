/** The inline directives the text model may append to its answer,
    `[GENERATE_IMAGE: <prompt>]` and `[GENERATE_VIDEO: <prompt>]`, found with the
    regular expressions `/\[GENERATE_IMAGE:\s*(.*?)\]/` and
    `/\[GENERATE_VIDEO:\s*(.*?)\]/`, removed with `String.prototype.replace`
    (first match only) and followed by `trim`. */
module Directives {
  import opened Types
  import opened JsString

  datatype Tag = ImageTag | VideoTag

  /** The literal that opens a tag, up to and including its colon. */
  function Opener(t: Tag): string {
    match t
    case ImageTag => "[GENERATE_IMAGE:"
    case VideoTag => "[GENERATE_VIDEO:"
  }

  /** A regex match: the matched text is `[start, end)`, capture group 1 is
      `[capStart, capEnd)`. */
  datatype TagMatch = TagMatch(start: nat, end: nat, capStart: nat, capEnd: nat)

  /** `m` is a match of tag `t`'s regex in `s`: the opener, whitespace, then
      the capture, then `]`. The capture begins at the first non-whitespace
      character (the greedy `\s*` leaves nothing else) and holds no `]` and no
      line terminator (the lazy `.*?` stops at the first `]`, and `.` does not
      match a line terminator). */
  predicate Spans(s: string, t: Tag, m: TagMatch) {
    var o := Opener(t);
    && m.start + |o| <= m.capStart <= m.capEnd && m.end == m.capEnd + 1 <= |s|
    && s[m.start..m.start + |o|] == o
    && (forall k :: m.start + |o| <= k < m.capStart ==> IsSpace(s[k]))
    && !IsSpace(s[m.capStart])
    && (forall k :: m.capStart <= k < m.capEnd ==> s[k] != ']' && !IsLineTerminator(s[k]))
    && s[m.capEnd] == ']'
  }

  /** The first index at or after `i` holding `]` or a line terminator. */
  function ScanToClose(s: string, i: nat): (j: nat)
    requires i <= |s|
    ensures i <= j <= |s|
    ensures forall k :: i <= k < j ==> s[k] != ']' && !IsLineTerminator(s[k])
    ensures j < |s| ==> s[j] == ']' || IsLineTerminator(s[j])
    decreases |s| - i
  {
    if i < |s| && s[i] != ']' && !IsLineTerminator(s[i]) then ScanToClose(s, i + 1) else i
  }

  /** The regex anchored at index `i`: the match starting there, if any. It is
      the one and only match that starts at `i`. */
  function MatchAt(s: string, t: Tag, i: nat): (r: Option<TagMatch>)
    requires i <= |s|
    ensures r.Some? ==> r.value.start == i && Spans(s, t, r.value)
    ensures forall m :: Spans(s, t, m) && m.start == i ==> r == Some(m)
  {
    var o := Opener(t);
    if i + |o| <= |s| && s[i..i + |o|] == o then
      var p := SkipSpaces(s, i + |o|);
      var q := ScanToClose(s, p);
      var r := if q < |s| && s[q] == ']' then Some(TagMatch(i, q + 1, p, q)) else None;
      r
    else
      None
  }

  /** The regex's search: the leftmost match starting at or after `i`. */
  function FindFrom(s: string, t: Tag, i: nat): (r: Option<TagMatch>)
    requires i <= |s|
    ensures r.Some? ==> i <= r.value.start && Spans(s, t, r.value)
    ensures forall m :: Spans(s, t, m) && i <= m.start ==> r.Some? && r.value.start <= m.start
    decreases |s| - i
  {
    match MatchAt(s, t, i)
    case Some(m) => Some(m)
    case None => if i == |s| then None else FindFrom(s, t, i + 1)
  }

  /** `text.match(regex)`: the leftmost match in the whole text. */
  function FindTag(s: string, t: Tag): (r: Option<TagMatch>)
    ensures r.Some? ==> Spans(s, t, r.value)
    ensures r.Some? ==> forall m :: Spans(s, t, m) ==> r.value.start <= m.start
    ensures r.None? <==> forall m :: !Spans(s, t, m)
  {
    FindFrom(s, t, 0)
  }

  /** `text.replace(regex, '').trim()` once `m` is the regex's first match. */
  function StripTag(s: string, m: TagMatch): (r: string)
    requires m.start <= m.end <= |s|
    ensures |r| + (m.end - m.start) <= |s|
    ensures r == [] || (!IsSpace(r[0]) && !IsSpace(r[|r| - 1]))
  {
    Trim(s[..m.start] + s[m.end..])
  }

  /** `m` is the regex's leftmost match in `text`, `prompt` its capture, and
      `visible` the text with that match removed and then trimmed. */
  ghost predicate Cut(text: string, t: Tag, m: TagMatch, prompt: string, visible: string) {
    && Spans(text, t, m)
    && (forall m' :: Spans(text, t, m') ==> m.start <= m'.start)
    && prompt == text[m.capStart..m.capEnd]
    && visible == Trim(text[..m.start] + text[m.end..])
  }

  /** What the text model asked for, once the answer is scanned: a video, an
      image, or nothing, with the prompt captured from the tag and the visible
      text that remains. */
  datatype Directive =
    | NoDirective
    | VideoDirective(prompt: string, visible: string)
    | ImageDirective(prompt: string, visible: string)

  /** Both regexes are applied to the answer; a video tag wins over an image
      tag; only the winning tag's first occurrence is removed. */
  function ParseDirective(text: string): (d: Directive)
    ensures d.NoDirective? <==> (forall m :: !Spans(text, VideoTag, m)) && (forall m :: !Spans(text, ImageTag, m))
    ensures d.VideoDirective? <==> exists m :: Spans(text, VideoTag, m)
    ensures !d.NoDirective? ==> ']' !in d.prompt && forall c :: c in d.prompt ==> !IsLineTerminator(c)
    ensures !d.NoDirective? ==> d.prompt == [] || !IsSpace(d.prompt[0])
    ensures !d.NoDirective? ==> |d.visible| < |text|
    ensures d.VideoDirective? ==> exists m :: Cut(text, VideoTag, m, d.prompt, d.visible)
    ensures d.ImageDirective? ==> exists m :: Cut(text, ImageTag, m, d.prompt, d.visible)
  {
    match FindTag(text, VideoTag)
    case Some(v) =>
      CaptureShape(text, VideoTag, v);
      var d := VideoDirective(text[v.capStart..v.capEnd], StripTag(text, v));
      assert Cut(text, VideoTag, v, d.prompt, d.visible);
      d
    case None =>
      match FindTag(text, ImageTag)
      case Some(g) =>
        CaptureShape(text, ImageTag, g);
        var d := ImageDirective(text[g.capStart..g.capEnd], StripTag(text, g));
        assert Cut(text, ImageTag, g, d.prompt, d.visible);
        d
      case None => NoDirective
  }

  /** The capture of a match holds no `]` and no line terminator and does not
      begin with whitespace. */
  lemma CaptureShape(s: string, t: Tag, m: TagMatch)
    requires Spans(s, t, m)
    ensures var c := s[m.capStart..m.capEnd];
      && ']' !in c && (forall ch :: ch in c ==> !IsLineTerminator(ch))
      && (c == [] || !IsSpace(c[0]))
  {
  }

  /** A match depends only on the characters it covers: wherever those
      characters reappear, the regex matches them there. */
  lemma SpansShift(s: string, u: string, t: Tag, m: TagMatch, d: int) returns (m': TagMatch)
    requires Spans(s, t, m)
    requires 0 <= m.start + d && m.end + d <= |u|
    requires forall k :: m.start <= k < m.end ==> u[k + d] == s[k]
    ensures m' == TagMatch(m.start + d, m.end + d, m.capStart + d, m.capEnd + d)
    ensures Spans(u, t, m')
  {
    m' := TagMatch(m.start + d, m.end + d, m.capStart + d, m.capEnd + d);
    var o := Opener(t);
    assert u[m.start + d..m.start + d + |o|] == s[m.start..m.start + |o|];
    forall k | m.start + d + |o| <= k < m.capStart + d ensures IsSpace(u[k]) {
      assert u[k] == s[k - d];
    }
    forall k | m.capStart + d <= k < m.capEnd + d ensures u[k] != ']' && !IsLineTerminator(u[k]) {
      assert u[k] == s[k - d];
    }
  }

  /** Cutting `[x, y)` out of the text keeps a match that lies outside it. */
  lemma CutKeepsSpans(s: string, x: nat, y: nat, t: Tag, m: TagMatch) returns (m': TagMatch)
    requires x <= y <= |s| && Spans(s, t, m)
    requires m.end <= x || y <= m.start
    ensures Spans(s[..x] + s[y..], t, m')
  {
    var u := s[..x] + s[y..];
    var d := if m.end <= x then 0 else x - y;
    forall k | m.start <= k < m.end ensures u[k + d] == s[k] {
      if m.end <= x { assert u[k] == s[..x][k]; } else { assert u[k + d] == s[y..][k - y]; }
    }
    m' := SpansShift(s, u, t, m, d);
  }

  /** A match begins with `[` and ends with `]`. */
  lemma SpanBrackets(s: string, t: Tag, m: TagMatch)
    requires Spans(s, t, m)
    ensures s[m.start] == '[' && s[m.capEnd] == ']'
  {
    assert s[m.start] == s[m.start..m.start + |Opener(t)|][0];
  }

  /** Trimming keeps every match, as a match is bracketed by non-whitespace. */
  lemma TrimKeepsSpans(s: string, t: Tag, m: TagMatch) returns (m': TagMatch)
    requires Spans(s, t, m)
    ensures Spans(Trim(s), t, m')
  {
    var a, b := TrimSlice(s);
    SpanBrackets(s, t, m);
    assert !IsSpace(s[m.start]) && !IsSpace(s[m.capEnd]);
    assert a <= m.start && m.capEnd < b;
    var u := s[a..b];
    forall k | m.start <= k < m.end ensures u[k - a] == s[k] { }
    m' := SpansShift(s, u, t, m, -a);
  }

  /** When an answer carries both tags and their first occurrences do not
      overlap, the video tag is acted on and the image tag stays in the visible
      text, where the regex still finds it. */
  lemma ImageTagSurvivesVideo(text: string)
    requires FindTag(text, VideoTag).Some? && FindTag(text, ImageTag).Some?
    requires var v, g := FindTag(text, VideoTag).value, FindTag(text, ImageTag).value;
      g.end <= v.start || v.end <= g.start
    ensures ParseDirective(text).VideoDirective?
    ensures exists m :: Spans(ParseDirective(text).visible, ImageTag, m)
  {
    var v, g := FindTag(text, VideoTag).value, FindTag(text, ImageTag).value;
    var g' := CutKeepsSpans(text, v.start, v.end, ImageTag, g);
    var g'' := TrimKeepsSpans(text[..v.start] + text[v.end..], ImageTag, g');
  }

  /** A match needs a `[` where it starts. */
  lemma NoSpanWithoutBracket(s: string, t: Tag, m: TagMatch)
    requires m.start >= |s| || s[m.start] != '['
    ensures !Spans(s, t, m)
  {
    if m.start < |s| {
      assert s[m.start] != Opener(t)[0];
    }
  }

  /** The two openers differ at their eleventh character. */
  lemma NoVideoSpanAtImageOpener(s: string, m: TagMatch)
    requires m.start + 10 < |s| && s[m.start + 10] == 'I'
    ensures !Spans(s, VideoTag, m)
  {
    assert Opener(VideoTag)[10] == 'V';
  }

  /** Two matches of one regex that start at the same index are the same. */
  lemma SpansUnique(s: string, t: Tag, m1: TagMatch, m2: TagMatch)
    requires Spans(s, t, m1) && Spans(s, t, m2) && m1.start == m2.start
    ensures m1 == m2
  {
    var _ := MatchAt(s, t, m1.start);
  }

  /** An answer with a single image tag: the regex captures the prompt after
      the whitespace that follows the colon, and the visible text is what
      surrounds the tag, trimmed. */
  lemma {:induction false} SingleImageTag(lead: string, ws: string, prompt: string, trail: string)
    requires '[' !in lead && '[' !in prompt && '[' !in trail
    requires forall c :: c in ws ==> IsSpace(c)
    requires ']' !in prompt && (forall c :: c in prompt ==> !IsLineTerminator(c))
    requires prompt == [] || !IsSpace(prompt[0])
    ensures ParseDirective(lead + Opener(ImageTag) + ws + prompt + "]" + trail)
      == ImageDirective(prompt, Trim(lead + trail))
  {
    var text := lead + Opener(ImageTag) + ws + prompt + "]" + trail;
    var m := SingleImageSpan(lead, ws, prompt, trail);
    OnlyOneBracket(lead, ws, prompt, trail);
    SoleImageTag(text, m);
    ImageOnly(text, m);
  }

  /** Where the image tag of such an answer sits. */
  lemma SingleImageSpan(lead: string, ws: string, prompt: string, trail: string) returns (m: TagMatch)
    requires forall c :: c in ws ==> IsSpace(c)
    requires ']' !in prompt && (forall c :: c in prompt ==> !IsLineTerminator(c))
    requires prompt == [] || !IsSpace(prompt[0])
    ensures var text := lead + Opener(ImageTag) + ws + prompt + "]" + trail;
      && Spans(text, ImageTag, m) && m.start == |lead|
      && text[m.capStart..m.capEnd] == prompt
      && text[..m.start] + text[m.end..] == lead + trail
  {
    var o := Opener(ImageTag);
    var text := lead + o + ws + prompt + "]" + trail;
    var i, p := |lead|, |lead| + |o| + |ws|;
    m := TagMatch(i, p + |prompt| + 1, p, p + |prompt|);
    assert text[..i] == lead;
    assert text == (lead + o + ws + prompt + "]") + trail;
    assert text[m.end..] == trail;
    assert text[i..i + |o|] == o;
    assert text[p..p + |prompt|] == prompt;
    assert forall k :: i + |o| <= k < p ==> text[k] == ws[k - i - |o|];
    assert forall k :: p <= k < p + |prompt| ==> text[k] == prompt[k - p];
    assert text[p + |prompt|] == ']';
  }

  /** The only `[` of such an answer is the one that opens the tag. */
  lemma OnlyOneBracket(lead: string, ws: string, prompt: string, trail: string)
    requires '[' !in lead && '[' !in prompt && '[' !in trail
    requires forall c :: c in ws ==> IsSpace(c)
    ensures var text := lead + Opener(ImageTag) + ws + prompt + "]" + trail;
      forall j :: 0 <= j < |text| && j != |lead| ==> text[j] != '['
  {
    var o := Opener(ImageTag);
    var text := lead + o + ws + prompt + "]" + trail;
    var i, p := |lead|, |lead| + |o| + |ws|;
    assert text == lead + (o + ws + prompt + "]" + trail);
    forall j | 0 <= j < |text| && j != i ensures text[j] != '[' {
      if j < i {
        assert text[j] == lead[j] && lead[j] in lead;
      } else if j < i + |o| {
        assert text[j] == o[j - i];
      } else if j < p {
        assert text[j] == ws[j - i - |o|] && ws[j - i - |o|] in ws;
      } else if j < p + |prompt| {
        assert text[j] == prompt[j - p] && prompt[j - p] in prompt;
      } else if j > p + |prompt| {
        assert text[j] == trail[j - p - |prompt| - 1] && trail[j - p - |prompt| - 1] in trail;
      }
    }
  }

  /** An image match whose `[` is the only one in the text is the first image
      match, and there is no video match. */
  lemma SoleImageTag(text: string, m: TagMatch)
    requires Spans(text, ImageTag, m)
    requires forall j :: 0 <= j < |text| && j != m.start ==> text[j] != '['
    ensures FindTag(text, VideoTag) == None && FindTag(text, ImageTag) == Some(m)
  {
    var g := FindTag(text, ImageTag).value;
    SpanBrackets(text, ImageTag, g);
    SpansUnique(text, ImageTag, g, m);
    assert text[m.start + 10] == text[m.start..m.start + 16][10];
    forall v ensures !Spans(text, VideoTag, v) {
      if v.start != m.start {
        NoSpanWithoutBracket(text, VideoTag, v);
      } else {
        NoVideoSpanAtImageOpener(text, v);
      }
    }
  }

  /** The image branch of `ParseDirective`, for an answer whose only tag is an
      image tag. */
  lemma ImageOnly(text: string, m: TagMatch)
    requires FindTag(text, VideoTag) == None && FindTag(text, ImageTag) == Some(m)
    ensures m.start <= m.capStart <= m.capEnd <= m.end <= |text|
    ensures ParseDirective(text) == ImageDirective(text[m.capStart..m.capEnd], StripTag(text, m))
  {
  }

  /** The image directive of a physics answer, as the persona prompt asks for
      it: the prompt is captured without the space after the colon and the
      tag leaves the text. */
  lemma ImageDirectiveExample(answer: string)
    requires answer == "... [GENERATE_IMAGE: a circuit diagram] "
    ensures ParseDirective(answer) == ImageDirective("a circuit diagram", "...")
  {
    var lead, prompt := "... ", "a circuit diagram";
    var text := lead + Opener(ImageTag) + " " + prompt + "]" + " ";
    assert answer == text;
    assert '[' !in lead && '[' !in " ";
    assert '[' !in prompt && ']' !in prompt;
    assert forall c :: c in prompt ==> !IsLineTerminator(c);
    SingleImageTag(lead, " ", prompt, " ");
    TrimDots();
  }

  lemma TrimDots()
    ensures Trim("... " + " ") == "..."
  {
    var v := "... " + " ";
    assert LeadingSpaces(v) == 0;
    assert v[..4][..3] == "...";
    assert TrailingSpaces(v[..4][..3]) == 0;
    assert TrailingSpaces(v[..4]) == 1;
    assert TrailingSpaces(v) == 2;
  }
}
