/** The voice-mode toggle of the chat panel (components/ChatInterface.tsx):
    two word-bounded regular expressions over the lower-cased input, the
    "on" expression tested first. Each alternative of those expressions is a
    sequence of literal words and `\s*` gaps. */
module VoiceToggle {
  import opened Types
  import opened JsString

  /** A piece of an alternative: a literal word, or `\s*`. */
  datatype Token = Lit(text: string) | Gap

  type Pattern = seq<Token>

  /** `voice\s*on | listen | speak | answer\s*in\s*voice` */
  const OnAlternatives: seq<Pattern> :=
    [[Lit("voice"), Gap, Lit("on")], [Lit("listen")], [Lit("speak")],
     [Lit("answer"), Gap, Lit("in"), Gap, Lit("voice")]]

  /** `voice\s*off | text\s*mode` */
  const OffAlternatives: seq<Pattern> :=
    [[Lit("voice"), Gap, Lit("off")], [Lit("text"), Gap, Lit("mode")]]

  /** Every gap is followed by a non-empty word that does not start with
      whitespace, so a greedy gap never has to give characters back. */
  predicate WellFormed(pat: Pattern) {
    forall t :: 0 <= t < |pat| && pat[t].Gap? ==>
      t + 1 < |pat| && pat[t + 1].Lit? && |pat[t + 1].text| > 0 && !IsSpace(pat[t + 1].text[0])
  }

  /** Characters `i..j` of `s` are all whitespace. */
  predicate AllSpace(s: string, i: nat, j: nat)
    requires i <= j <= |s|
  {
    forall k :: i <= k < j ==> IsSpace(s[k])
  }

  /** What the regular expression means: the alternative matches exactly the
      characters `i..e` of `s`, a gap taking any run of whitespace. */
  predicate Matches(s: string, i: nat, pat: Pattern, e: nat)
    requires i <= e <= |s|
    decreases |pat|
  {
    if pat == [] then e == i
    else match pat[0]
      case Lit(w) => OccursAt(s, w, i) && i + |w| <= e && Matches(s, i + |w|, pat[1..], e)
      case Gap => exists j :: i <= j <= e && AllSpace(s, i, j) && Matches(s, j, pat[1..], e)
  }

  /** The end of the match of an alternative at `i`: words must occur there,
      gaps skip all the whitespace there is. */
  function MatchEnd(s: string, i: nat, pat: Pattern): (r: Option<nat>)
    requires i <= |s|
    ensures r.Some? ==> i <= r.value <= |s|
    decreases |pat|
  {
    if pat == [] then Some(i)
    else match pat[0]
      case Lit(w) => if OccursAt(s, w, i) then MatchEnd(s, i + |w|, pat[1..]) else None
      case Gap => MatchEnd(s, SkipSpaces(s, i), pat[1..])
  }

  /** Skipping whitespace goes at least as far as a run of whitespace. */
  lemma {:induction false} SkipCoversSpaces(s: string, i: nat, j: nat)
    requires i <= j <= |s| && AllSpace(s, i, j)
    ensures j <= SkipSpaces(s, i)
    decreases j - i
  {
    if i < j {
      assert IsSpace(s[i]);
      SkipCoversSpaces(s, i + 1, j);
    }
  }

  /** Skipping whitespace stops at or before the next non-space. */
  lemma {:induction false} SkipReachesNonSpace(s: string, i: nat, j: nat)
    requires i <= j < |s| && !IsSpace(s[j])
    ensures SkipSpaces(s, i) <= j
    decreases j - i
  {
    if i < j && IsSpace(s[i]) {
      SkipReachesNonSpace(s, i + 1, j);
    }
  }

  /** The greedy matcher finds the match and the only one: for a well-formed
      alternative, it ends at `e` exactly when the alternative matches
      `i..e`. */
  lemma {:induction false} MatchEndIsMatch(s: string, i: nat, pat: Pattern, e: nat)
    requires WellFormed(pat) && i <= e <= |s|
    ensures MatchEnd(s, i, pat) == Some(e) <==> Matches(s, i, pat, e)
    decreases |pat|
  {
    if pat != [] {
      assert WellFormed(pat[1..]) by {
        forall t | 0 <= t < |pat[1..]| && pat[1..][t].Gap?
          ensures t + 1 < |pat[1..]| && pat[1..][t + 1].Lit? && |pat[1..][t + 1].text| > 0 && !IsSpace(pat[1..][t + 1].text[0])
        {
          assert pat[t + 1].Gap?;
        }
      }
      match pat[0]
      case Lit(w) =>
        if OccursAt(s, w, i) && i + |w| <= e {
          MatchEndIsMatch(s, i + |w|, pat[1..], e);
        } else if OccursAt(s, w, i) {
          var r := MatchEnd(s, i + |w|, pat[1..]);
          assert r.Some? ==> i + |w| <= r.value;
        }
      case Gap =>
        var j := SkipSpaces(s, i);
        if j <= e {
          MatchEndIsMatch(s, j, pat[1..], e);
          if Matches(s, j, pat[1..], e) {
            assert AllSpace(s, i, j);
          }
        }
        forall j' | i <= j' <= e && AllSpace(s, i, j') && Matches(s, j', pat[1..], e)
          ensures j' == j
        {
          var w := pat[1].text;
          assert OccursAt(s, w, j') && s[j'] == w[0];
          SkipReachesNonSpace(s, i, j');
          SkipCoversSpaces(s, i, j');
        }
    }
  }

  /** `\b`: exactly one side of position `i` is a word character (outside the
      text counts as a non-word character). */
  predicate Boundary(s: string, i: nat)
    requires i <= |s|
  {
    (i > 0 && IsWordChar(s[i - 1])) != (i < |s| && IsWordChar(s[i]))
  }

  /** Alternative `k` matches at `p` between two word boundaries. */
  predicate FoundAt(s: string, alts: seq<Pattern>, k: int, p: int) {
    && 0 <= k < |alts| && 0 <= p <= |s|
    && Boundary(s, p)
    && var r := MatchEnd(s, p, alts[k]);
       r.Some? && Boundary(s, r.value)
  }

  /** Some alternative matches between boundaries at `p`. */
  function FoundAtAny(s: string, alts: seq<Pattern>, p: nat): (r: bool)
    requires p <= |s|
    ensures r <==> exists k :: FoundAt(s, alts, k, p)
  {
    if alts == [] then false
    else
      var r := FoundAt(s, alts, 0, p) || FoundAtAny(s, alts[1..], p);
      assert r ==> exists k :: FoundAt(s, alts, k, p) by {
        if !FoundAt(s, alts, 0, p) && FoundAtAny(s, alts[1..], p) {
          var k :| FoundAt(s, alts[1..], k, p);
          assert FoundAt(s, alts, k + 1, p);
        }
      }
      assert (exists k :: FoundAt(s, alts, k, p)) ==> r by {
        if k :| FoundAt(s, alts, k, p) {
          if k > 0 { assert FoundAt(s, alts[1..], k - 1, p); }
        }
      }
      r
  }

  function TestFrom(s: string, alts: seq<Pattern>, p: nat): (r: bool)
    requires p <= |s|
    ensures r <==> exists k, q :: p <= q && FoundAt(s, alts, k, q)
    decreases |s| - p
  {
    if FoundAtAny(s, alts, p) then true
    else if p == |s| then false
    else
      var r := TestFrom(s, alts, p + 1);
      assert (exists k, q :: p <= q && FoundAt(s, alts, k, q)) ==> r by {
        if k, q :| p <= q && FoundAt(s, alts, k, q) {
          assert q != p;
        }
      }
      r
  }

  /** `regex.test(s)`: some alternative matches somewhere between word
      boundaries. */
  function Test(s: string, alts: seq<Pattern>): (r: bool)
    ensures r <==> exists k, p :: FoundAt(s, alts, k, p)
  {
    TestFrom(s, alts, 0)
  }

  /** The voice mode of a turn: switched on when the lower-cased input says
      so, else switched off when it says so, else left as it was. */
  function NextVoiceMode(input: string, current: bool): (next: bool)
    ensures (exists k, p :: FoundAt(Lower(input), OnAlternatives, k, p)) ==> next
    ensures ((forall k, p :: !FoundAt(Lower(input), OnAlternatives, k, p))
             && (exists k, p :: FoundAt(Lower(input), OffAlternatives, k, p))) ==> !next
    ensures ((forall k, p :: !FoundAt(Lower(input), OnAlternatives, k, p))
             && (forall k, p :: !FoundAt(Lower(input), OffAlternatives, k, p))) ==> next == current
  {
    var lower := Lower(input);
    if Test(lower, OnAlternatives) then true
    else if Test(lower, OffAlternatives) then false
    else current
  }

  // ---------------------------------------------------------------------
  // Properties of the toggle

  lemma AlternativesWellFormed()
    ensures forall k :: 0 <= k < |OnAlternatives| ==> WellFormed(OnAlternatives[k])
    ensures forall k :: 0 <= k < |OffAlternatives| ==> WellFormed(OffAlternatives[k])
  {
  }

  /** An alternative whose words use a letter the text lacks matches nowhere. */
  lemma {:induction false} AbsentLetterNoMatch(s: string, i: nat, pat: Pattern, t: nat, c: char)
    requires i <= |s| && c !in s
    requires t < |pat| && pat[t].Lit? && c in pat[t].text
    ensures MatchEnd(s, i, pat).None?
    decreases |pat|
  {
    match pat[0]
    case Lit(w) =>
      if t == 0 {
        MissingLetter(s, w, c);
      } else if OccursAt(s, w, i) {
        assert pat[1..][t - 1] == pat[t];
        AbsentLetterNoMatch(s, i + |w|, pat[1..], t - 1, c);
      }
    case Gap =>
      assert pat[1..][t - 1] == pat[t];
      AbsentLetterNoMatch(s, SkipSpaces(s, i), pat[1..], t - 1, c);
  }

  /** Lower-casing keeps word characters word characters and the rest not. */
  lemma LowerKeepsWordChars(c: char)
    ensures IsWordChar(LowerChar(c)) <==> IsWordChar(c)
  {
  }

  /** Lower-casing keeps a lower-case word in place and keeps word
      characters around it word characters. */
  lemma LowerAround(lead: string, word: string, trail: string)
    requires forall k :: 0 <= k < |word| ==> 'a' <= word[k] <= 'z'
    ensures var s := Lower(lead + word + trail);
      && s[|lead|..|lead| + |word|] == word
      && (forall k :: 0 <= k < |lead| ==> (IsWordChar(s[k]) <==> IsWordChar(lead[k])))
      && (forall k :: 0 <= k < |trail| ==> (IsWordChar(s[|lead| + |word| + k]) <==> IsWordChar(trail[k])))
  {
    var input := lead + word + trail;
    var s := Lower(input);
    var p := |lead|;
    forall k | 0 <= k < |word| ensures s[p + k] == word[k] {
      assert input[p + k] == word[k];
    }
    forall k | 0 <= k < |lead| ensures IsWordChar(s[k]) <==> IsWordChar(lead[k]) {
      assert input[k] == lead[k];
      LowerKeepsWordChars(input[k]);
    }
    forall k | 0 <= k < |trail| ensures IsWordChar(s[p + |word| + k]) <==> IsWordChar(trail[k]) {
      assert input[p + |word| + k] == trail[k];
      LowerKeepsWordChars(input[p + |word| + k]);
    }
  }

  /** "listen" standing as a whole word switches voice mode on, whatever
      surrounds it and whatever the mode was. */
  lemma ListenSwitchesOn(lead: string, trail: string, current: bool)
    requires lead == [] || !IsWordChar(lead[|lead| - 1])
    requires trail == [] || !IsWordChar(trail[0])
    ensures NextVoiceMode(lead + "listen" + trail, current)
  {
    var word := OnAlternatives[1][0].text;
    assert word == "listen";
    LowerAround(lead, word, trail);
    var s := Lower(lead + word + trail);
    var p := |lead|;
    assert |s| == p + 6 + |trail|;
    assert OccursAt(s, word, p);
    assert MatchEnd(s, p, OnAlternatives[1]) == Some(p + 6);
    assert Boundary(s, p) by {
      assert IsWordChar(s[p]);
      if p > 0 { assert !IsWordChar(s[p - 1]); }
    }
    assert Boundary(s, p + 6) by {
      assert IsWordChar(s[p + 5]);
      if trail != [] { assert !IsWordChar(s[p + 6 + 0]); }
    }
    assert FoundAt(s, OnAlternatives, 1, p);
  }

  lemma ListeningLetters(s: string)
    requires s == "listening"
    ensures 'v' !in s && 'p' !in s && 'a' !in s && 'x' !in s
    ensures forall i :: 0 <= i < |s| ==> !('A' <= s[i] <= 'Z')
    ensures forall i :: 0 < i < |s| ==> s[i] != 'l'
    ensures IsWordChar(s[5]) && IsWordChar(s[6])
  {
  }

  /** "listening" is not the word "listen": the mode is left as it was. */
  lemma ListeningKeepsMode(input: string, current: bool)
    requires input == "listening"
    ensures NextVoiceMode(input, current) == current
  {
    ListeningLetters(input);
    LowerOfLowerCase(input);
    var s := input;
    forall k, p ensures !FoundAt(s, OnAlternatives, k, p) {
      if 0 <= p <= |s| {
        if k == 0 {
          AbsentLetterNoMatch(s, p, OnAlternatives[0], 0, 'v');
        } else if k == 1 {
          if p == 0 {
            assert OccursAt(s, "listen", 0) by { assert s[..6] == "listen"; }
            assert MatchEnd(s, 0, OnAlternatives[1]) == Some(6);
            assert !Boundary(s, 6);
          } else if p < |s| {
            assert s[p] != 'l';
            assert !OccursAt(s, "listen", p);
          }
        } else if k == 2 {
          AbsentLetterNoMatch(s, p, OnAlternatives[2], 0, 'p');
        } else if k == 3 {
          AbsentLetterNoMatch(s, p, OnAlternatives[3], 0, 'a');
        }
      }
    }
    forall k, p ensures !FoundAt(s, OffAlternatives, k, p) {
      if 0 <= p <= |s| {
        if k == 0 {
          AbsentLetterNoMatch(s, p, OffAlternatives[0], 0, 'v');
        } else if k == 1 {
          AbsentLetterNoMatch(s, p, OffAlternatives[1], 0, 'x');
        }
      }
    }
  }

  lemma VoiceOnlyLetters(s: string)
    requires s == "voice only"
    ensures 't' !in s && 'p' !in s && 'a' !in s && 'f' !in s
    ensures forall i :: 0 <= i < |s| ==> !('A' <= s[i] <= 'Z')
    ensures forall i :: 0 < i < |s| ==> s[i] != 'v'
    ensures s[..5] == "voice" && IsSpace(s[5]) && !IsSpace(s[6]) && s[6..8] == "on"
    ensures IsWordChar(s[7]) && IsWordChar(s[8])
  {
  }

  /** "voice only" does not say "voice on" as a word: the mode is left as
      it was. */
  lemma VoiceOnlyKeepsMode(input: string, current: bool)
    requires input == "voice only"
    ensures NextVoiceMode(input, current) == current
  {
    VoiceOnlyLetters(input);
    LowerOfLowerCase(input);
    var s := input;
    forall k, p ensures !FoundAt(s, OnAlternatives, k, p) {
      if 0 <= p <= |s| {
        if k == 0 {
          if p == 0 {
            assert OccursAt(s, "voice", 0);
            assert SkipSpaces(s, 5) == 6;
            assert OccursAt(s, "on", 6);
            assert MatchEnd(s, 0, OnAlternatives[0]) == Some(8);
            assert !Boundary(s, 8);
          } else if p < |s| {
            assert s[p] != 'v';
            assert !OccursAt(s, "voice", p);
          }
        } else if k == 1 {
          AbsentLetterNoMatch(s, p, OnAlternatives[1], 0, 't');
        } else if k == 2 {
          AbsentLetterNoMatch(s, p, OnAlternatives[2], 0, 'p');
        } else if k == 3 {
          AbsentLetterNoMatch(s, p, OnAlternatives[3], 0, 'a');
        }
      }
    }
    forall k, p ensures !FoundAt(s, OffAlternatives, k, p) {
      if 0 <= p <= |s| {
        if k == 0 {
          AbsentLetterNoMatch(s, p, OffAlternatives[0], 2, 'f');
        } else if k == 1 {
          AbsentLetterNoMatch(s, p, OffAlternatives[1], 0, 't');
        }
      }
    }
  }
}
