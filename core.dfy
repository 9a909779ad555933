/**
  The subtitle-to-voiceover pipeline: subtitle times in milliseconds, the "Name: text"
  speaker label, the speaker-to-voice lookup, fitting a synthesised segment to its slot, and
  the timeline that places every segment at its subtitle's start.

  Audio is a sequence with one entry per millisecond; the text-to-speech engine is the
  function parameter `synth`, taking the cleaned text and the voice.
*/
module Core {
  import opened Wrappers
  import opened Text
  import opened Numbers

  // ---------------------------------------------------------------- subtitle times

  /** A subtitle timestamp as the subtitle library hands it over. */
  datatype SrtTime = SrtTime(hours: int, minutes: int, seconds: int, milliseconds: int)

  /** Each component within its clock range. */
  predicate Normalised(t: SrtTime) {
    t.hours >= 0 && 0 <= t.minutes < 60 && 0 <= t.seconds < 60 && 0 <= t.milliseconds < 1000
  }

  function SrtTimeToMilliseconds(t: SrtTime): int {
    (t.hours * 3600 + t.minutes * 60 + t.seconds) * 1000 + t.milliseconds
  }

  lemma SrtTimeExample()
    ensures SrtTimeToMilliseconds(SrtTime(0, 1, 2, 345)) == 62345
  {
  }

  lemma DivModUnique(q: int, r: int, d: int, n: int)
    requires d > 0 && 0 <= r < d && n == q * d + r
    ensures n / d == q && n % d == r
  {
    var q', r' := n / d, n % d;
    assert (q - q') * d == r' - r;
    if q' < q {
      assert (q - q') * d >= d by { MulAtLeast(q - q', d); }
    } else if q' > q {
      assert (q' - q) * d >= d by { MulAtLeast(q' - q, d); }
    }
  }

  lemma MulAtLeast(a: int, d: int)
    requires a >= 1 && d > 0
    ensures a * d >= d
  {
  }

  /** For a normalised time the milliseconds determine every component again, so the
      conversion loses nothing. */
  lemma {:induction false} SrtTimeDecomposes(t: SrtTime)
    requires Normalised(t)
    ensures var ms := SrtTimeToMilliseconds(t);
      && ms >= 0
      && ms % 1000 == t.milliseconds
      && (ms / 1000) % 60 == t.seconds
      && (ms / 60000) % 60 == t.minutes
      && ms / 3600000 == t.hours
  {
    var ms := SrtTimeToMilliseconds(t);
    var secs := t.hours * 3600 + t.minutes * 60 + t.seconds;
    DivModUnique(secs, t.milliseconds, 1000, ms);
    DivModUnique(t.hours * 60 + t.minutes, t.seconds, 60, secs);
    var mins := t.hours * 60 + t.minutes;
    assert ms == mins * 60000 + (t.seconds * 1000 + t.milliseconds);
    DivModUnique(mins, t.seconds * 1000 + t.milliseconds, 60000, ms);
    DivModUnique(t.hours, t.minutes, 60, mins);
    assert ms == t.hours * 3600000 + (t.minutes * 60000 + t.seconds * 1000 + t.milliseconds);
    DivModUnique(t.hours, t.minutes * 60000 + t.seconds * 1000 + t.milliseconds, 3600000, ms);
  }

  // ---------------------------------------------------------------- speaker labels

  /** `line.split(":", 1)` when the line holds a colon: the text before the first colon and
      the text after it; None when there is no colon. */
  function SplitAtColon(line: string): Option<(string, string)> {
    if line == [] then None
    else if line[0] == ':' then Some(([], line[1..]))
    else
      match SplitAtColon(line[1..])
      case None => None
      case Some(parts) => Some(([line[0]] + parts.0, parts.1))
  }

  /** The split happens exactly when there is a colon, at the first one, and loses only it. */
  lemma {:induction false} SplitAtColonMeaning(line: string)
    ensures SplitAtColon(line).None? <==> !Contains(line, ':')
    ensures SplitAtColon(line).Some? ==>
      var (before, after) := SplitAtColon(line).value;
      line == before + ":" + after && !Contains(before, ':')
  {
    if line != [] {
      if line[0] != ':' {
        SplitAtColonMeaning(line[1..]);
        ContainsTail(line, ':');
        match SplitAtColon(line[1..])
        case None =>
        case Some(parts) =>
          var before := [line[0]] + parts.0;
          assert line == [line[0]] + line[1..];
          forall k | 0 <= k < |before| ensures before[k] != ':' {
            if k > 0 { assert before[k] == parts.0[k - 1]; }
          }
      } else {
        assert line == [] + ":" + line[1..];
      }
    }
  }

  /** Splitting "before:after" with no colon in `before` gives back the two parts. */
  lemma {:induction false} SplitAtColonOf(before: string, after: string)
    requires !Contains(before, ':')
    ensures SplitAtColon(before + ":" + after) == Some((before, after))
  {
    var line := before + ":" + after;
    if before == [] {
      assert line[1..] == after;
    } else {
      assert line[1..] == before[1..] + ":" + after;
      forall k | 0 <= k < |before[1..]| ensures before[1..][k] != ':' {
        assert before[1..][k] == before[k + 1];
      }
      SplitAtColonOf(before[1..], after);
      assert [before[0]] + before[1..] == before;
    }
  }

  /** Letters and spaces only. */
  predicate LettersAndSpaces(s: string) {
    s == [] || ((IsLetter(s[0]) || s[0] == ' ') && LettersAndSpaces(s[1..]))
  }

  /** A speaker label as this parser accepts it: non-empty, an upper-case first letter, and
      letters only once the spaces are removed (see `SpeakerLabelAsWritten`). */
  predicate IsSpeakerLabel(name: string) {
    name != [] && IsUpper(name[0]) && LettersAndSpaces(name)
  }

  predicate AllLetters(s: string) {
    forall k :: 0 <= k < |s| ==> IsLetter(s[k])
  }

  lemma {:induction false} LettersAndSpacesRemoveChar(s: string)
    ensures LettersAndSpaces(s) <==> AllLetters(RemoveChar(s, ' '))
  {
    if s != [] {
      LettersAndSpacesRemoveChar(s[1..]);
      var rest := RemoveChar(s[1..], ' ');
      if s[0] != ' ' {
        var r := [s[0]] + rest;
        assert RemoveChar(s, ' ') == r;
        assert r[0] == s[0];
        assert forall k :: 0 <= k < |rest| ==> rest[k] == r[k + 1];
        assert forall k :: 1 <= k < |r| ==> r[k] == rest[k - 1];
      } else {
        assert RemoveChar(s, ' ') == rest;
      }
    }
  }

  /** The label test is the source's `name[0].isupper() and name.replace(" ", "").isalpha()`. */
  lemma SpeakerLabelAsWritten(name: string)
    ensures IsSpeakerLabel(name) <==> name != [] && IsUpper(name[0]) && IsAlpha(RemoveChar(name, ' '))
  {
    LettersAndSpacesRemoveChar(name);
    if name != [] && IsUpper(name[0]) {
      assert RemoveChar(name, ' ') == [name[0]] + RemoveChar(name[1..], ' ');
    }
  }

  /** `possible_speaker` of `line.split(":", 1)`, stripped, when the line has a colon. */
  function LabelCandidate(line: string): Option<string> {
    match SplitAtColon(line)
    case None => None
    case Some(parts) => Some(Strip(parts.0))
  }

  /** `rest` of `line.split(":", 1)`, left-stripped. */
  function AfterLabel(line: string): string
    requires SplitAtColon(line).Some?
  {
    LStrip(SplitAtColon(line).value.1)
  }

  /** The content lines once the label is taken off the first line. */
  function LabelledContent(lines: seq<string>): seq<string>
    requires lines != [] && SplitAtColon(lines[0]).Some?
  {
    var first := AfterLabel(lines[0]);
    (if first != [] then [first] else []) + lines[1..]
  }

  /** A capitalised word of letters is a label. */
  lemma {:induction false} CapitalisedWordIsLabel(name: string)
    requires IsAlpha(name) && IsUpper(name[0])
    ensures IsSpeakerLabel(name)
  {
    LettersOnly(name);
  }

  lemma {:induction false} LettersOnly(s: string)
    requires forall k :: 0 <= k < |s| ==> IsLetter(s[k])
    ensures LettersAndSpaces(s)
  {
    if s != [] {
      assert forall k :: 0 <= k < |s[1..]| ==> IsLetter(s[1..][k]) by {
        forall k | 0 <= k < |s[1..]| ensures IsLetter(s[1..][k]) { assert s[1..][k] == s[k + 1]; }
      }
      LettersOnly(s[1..]);
    }
  }

  /** A label is letters and spaces only, so it never holds the colon that ends it. */
  lemma {:induction false} SpeakerLabelHasNoColon(name: string)
    requires LettersAndSpaces(name)
    ensures !Contains(name, ':')
  {
    if name != [] {
      SpeakerLabelHasNoColon(name[1..]);
      forall k | 0 <= k < |name| ensures name[k] != ':' {
        if k > 0 { assert name[k] == name[1..][k - 1]; }
      }
    }
  }

  /** The label, when the first non-blank line carries one that qualifies. */
  function SpeakerOf(lines: seq<string>): Option<string> {
    if lines != [] && LabelCandidate(lines[0]).Some? && IsSpeakerLabel(LabelCandidate(lines[0]).value)
    then LabelCandidate(lines[0])
    else None
  }

  /** `parse_speaker_and_text`: splits "Name: text" into the speaker and the cleaned text.
      What the parts are is stated by `ParseSpeakerAndTextMeaning`. */
  function ParseSpeakerAndText(raw: string): (Option<string>, string) {
    if raw == [] then (None, "") else ParseLines(NonBlankLines(raw))
  }

  /** The parser after the non-blank lines have been collected. */
  function ParseLines(lines: seq<string>): (Option<string>, string) {
    if lines == [] then (None, "")
    else
      var candidate := LabelCandidate(lines[0]);
      if candidate.Some? && IsSpeakerLabel(candidate.value) then
        (candidate, Strip(Join(LabelledContent(lines), " ")))
      else
        (None, Strip(Join(lines, " ")))
  }

  /** The speaker is the qualifying label of the first non-blank line, if any; the text is the
      non-blank lines, stripped and joined with single spaces, with that label taken off. */
  lemma ParseSpeakerAndTextMeaning(raw: string)
    ensures var r := ParseSpeakerAndText(raw);
      && (NonBlankLines(raw) == [] ==> r == (None, ""))
      && r.0 == SpeakerOf(NonBlankLines(raw))
      && (r.0.Some? ==> IsSpeakerLabel(r.0.value) && !Contains(r.0.value, ':'))
      && (r.0.None? ==> r.1 == Join(NonBlankLines(raw), " "))
      && (r.0.Some? ==> r.1 == Join(LabelledContent(NonBlankLines(raw)), " "))
      && Stripped(r.1)
  {
    var lines := NonBlankLines(raw);
    if raw == [] {
      NoLinesOfEmpty();
    }
    assert ParseSpeakerAndText(raw) == ParseLines(lines);
    if lines == [] {
    } else if SpeakerOf(lines).Some? {
      ParseLabelled(lines);
    } else {
      ParseUnlabelled(lines);
    }
  }

  lemma ParseLabelled(lines: seq<string>)
    requires lines != [] && SpeakerOf(lines).Some?
    requires forall k :: 0 <= k < |lines| ==> lines[k] != [] && Stripped(lines[k])
    ensures ParseLines(lines) == (SpeakerOf(lines), Join(LabelledContent(lines), " "))
    ensures !Contains(SpeakerOf(lines).value, ':') && Stripped(Join(LabelledContent(lines), " "))
  {
    var content := LabelledContent(lines);
    var candidate := LabelCandidate(lines[0]);
    assert candidate == SpeakerOf(lines) && candidate.Some? && IsSpeakerLabel(candidate.value);
    assert ParseLines(lines) == (candidate, Strip(Join(content, " ")));
    ContentStripped(lines);
    SpeakerLabelHasNoColon(candidate.value);
    JoinStripped(content);
    StripOfStripped(Join(content, " "));
  }

  lemma ParseUnlabelled(lines: seq<string>)
    requires lines != [] && SpeakerOf(lines).None?
    requires forall k :: 0 <= k < |lines| ==> lines[k] != [] && Stripped(lines[k])
    ensures ParseLines(lines) == (None, Join(lines, " ")) && Stripped(Join(lines, " "))
  {
    assert ParseLines(lines) == (None, Strip(Join(lines, " ")));
    JoinStripped(lines);
    StripOfStripped(Join(lines, " "));
  }

  lemma ContentStripped(lines: seq<string>)
    requires lines != [] && SplitAtColon(lines[0]).Some?
    requires forall k :: 0 <= k < |lines| ==> lines[k] != [] && Stripped(lines[k])
    ensures forall k :: 0 <= k < |LabelledContent(lines)| ==>
      LabelledContent(lines)[k] != [] && Stripped(LabelledContent(lines)[k])
  {
    var first := AfterLabel(lines[0]);
    var tail := lines[1..];
    assert forall k :: 0 <= k < |tail| ==> tail[k] != [] && Stripped(tail[k]) by {
      forall k | 0 <= k < |tail| ensures tail[k] != [] && Stripped(tail[k]) {
        assert tail[k] == lines[k + 1];
      }
    }
    if first != [] {
      AfterLabelStripped(lines[0]);
      ConsAllStripped(first, tail);
      assert LabelledContent(lines) == [first] + tail;
    } else {
      assert LabelledContent(lines) == tail;
    }
  }

  lemma AfterLabelStripped(line: string)
    requires SplitAtColon(line).Some? && Stripped(line)
    ensures Stripped(AfterLabel(line))
  {
    SplitAtColonMeaning(line);
    var (before, rest) := SplitAtColon(line).value;
    var first := LStrip(rest);
    if first != [] {
      assert first == rest[|rest| - |first|..];
      assert first[|first| - 1] == rest[|rest| - 1];
      assert rest[|rest| - 1] == line[|line| - 1];
    }
  }

  /** Two stripped lines without line breaks stay exactly those two lines. */
  lemma TwoNonBlankLines(a: string, b: string)
    requires a != [] && Stripped(a) && b != [] && Stripped(b)
    requires forall k :: 0 <= k < |a| ==> !IsLineBreak(a[k])
    requires forall k :: 0 <= k < |b| ==> !IsLineBreak(b[k])
    ensures NonBlankLines(a + "\n" + b) == [a, b]
  {
    LinePiecesOfTwoLines(a, '\n', b);
    assert a + "\n" + b == a + ['\n'] + b;
    StripOfStripped(a);
    StripOfStripped(b);
    var p := LinePieces(a + "\n" + b);
    assert p == [a, b];
    assert StripNonBlank(p) == [a] + StripNonBlank([b]);
    assert StripNonBlank([b]) == [b] + StripNonBlank([]);
  }

  lemma OneNonBlankLine(a: string)
    requires a != [] && Stripped(a)
    requires forall k :: 0 <= k < |a| ==> !IsLineBreak(a[k])
    ensures NonBlankLines(a) == [a]
  {
    LinePiecesOfLine(a);
    StripOfStripped(a);
    var p := LinePieces(a);
    assert StripNonBlank(p) == [Strip(p[0])] + StripNonBlank(p[1..]);
    assert p[1..] == [];
  }

  /** A labelled first line followed by one more line: the label is the speaker and the text
      after it is joined to the second line with one space. */
  lemma LabelledTwoLines(lines: seq<string>, name: string, first: string)
    requires |lines| == 2 && SplitAtColon(lines[0]).Some?
    requires Strip(SplitAtColon(lines[0]).value.0) == name && IsSpeakerLabel(name)
    requires AfterLabel(lines[0]) == first && first != []
    ensures SpeakerOf(lines) == Some(name)
    ensures Join(LabelledContent(lines), " ") == first + " " + lines[1]
  {
    assert LabelCandidate(lines[0]) == Some(name);
    var content := LabelledContent(lines);
    assert content == [first] + lines[1..];
    assert lines[1..] == [lines[1]];
    JoinCons(first, [lines[1]], " ");
  }

  /** "Name: first" on one line and more text on the next. */
  lemma ParseLabelledTwoLines(name: string, rest: string, b: string)
    requires IsSpeakerLabel(name) && Stripped(name) && rest != [] && Stripped(rest)
    requires forall k :: 0 <= k < |name| ==> !IsLineBreak(name[k])
    requires forall k :: 0 <= k < |rest| ==> !IsLineBreak(rest[k])
    requires b != [] && Stripped(b) && forall k :: 0 <= k < |b| ==> !IsLineBreak(b[k])
    ensures ParseSpeakerAndText(name + ": " + rest + "\n" + b) == (Some(name), rest + " " + b)
  {
    var a := name + ": " + rest;
    LabelledLine(name, rest);
    TwoNonBlankLines(a, b);
    LabelledTwoLines([a, b], name, rest);
    ParseSpeakerAndTextMeaning(a + "\n" + b);
  }

  /** A "Name: text" line: a stripped single line whose label is `name` and whose text after
      the label is `rest`. */
  lemma LabelledLine(name: string, rest: string)
    requires IsSpeakerLabel(name) && Stripped(name) && rest != [] && Stripped(rest)
    requires forall k :: 0 <= k < |name| ==> !IsLineBreak(name[k])
    requires forall k :: 0 <= k < |rest| ==> !IsLineBreak(rest[k])
    ensures var a := name + ": " + rest;
      && a != [] && Stripped(a) && (forall k :: 0 <= k < |a| ==> !IsLineBreak(a[k]))
      && SplitAtColon(a) == Some((name, " " + rest))
      && Strip(name) == name && AfterLabel(a) == rest
  {
    var a := name + ": " + rest;
    assert a == name + ":" + (" " + rest);
    SpeakerLabelHasNoColon(name);
    SplitAtColonOf(name, " " + rest);
    StripOfStripped(name);
    assert " " + rest == [' '] + rest;
    LStripOneSpace(rest);
    forall k | 0 <= k < |a| ensures !IsLineBreak(a[k]) {
      if k < |name| { assert a[k] == name[k]; }
      else if k >= |name| + 2 { assert a[k] == rest[k - |name| - 2]; }
    }
    assert a[|a| - 1] == rest[|rest| - 1];
  }

  /** A single stripped line without a colon is its own text, with no speaker. */
  lemma ParseUnlabelledLine(line: string)
    requires line != [] && Stripped(line) && !Contains(line, ':')
    requires forall k :: 0 <= k < |line| ==> !IsLineBreak(line[k])
    ensures ParseSpeakerAndText(line) == (None, line)
  {
    OneNonBlankLine(line);
    SplitAtColonMeaning(line);
    ParseSpeakerAndTextMeaning(line);
  }

  lemma ParseExampleWithoutLabel()
    ensures ParseSpeakerAndText("No speaker line") == (None, "No speaker line")
  {
    ParseUnlabelledLine("No speaker line");
  }

  // ---------------------------------------------------------------- voice lookup

  /** `get_voice_for_speaker`: the mapped voice for a non-empty known speaker, else the default. */
  function GetVoiceForSpeaker(speaker: Option<string>, speakerVoices: map<string, string>, defaultVoice: string): (v: string)
    ensures speaker.Some? && speaker.value != [] && speaker.value in speakerVoices ==> v == speakerVoices[speaker.value]
    ensures !(speaker.Some? && speaker.value != [] && speaker.value in speakerVoices) ==> v == defaultVoice
  {
    if speaker.Some? && speaker.value != [] && speaker.value in speakerVoices then speakerVoices[speaker.value]
    else defaultVoice
  }

  // ---------------------------------------------------------------- audio

  /** One millisecond of audio. */
  datatype Millisecond = Silent | Voiced(sample: int)

  type Audio = seq<Millisecond>

  /** `AudioSegment.silent(duration=n)`. */
  function Silence(n: nat): (a: Audio)
    ensures |a| == n && forall k :: 0 <= k < n ==> a[k] == Silent
  {
    seq(n, _ => Silent)
  }


  /** `align_segment_duration`: pads the tail with silence or trims the tail. */
  function AlignSegmentDuration(segment: Audio, targetMs: int, toleranceMs: int): (r: Audio)
    ensures targetMs <= 0 || segment == [] || Abs(targetMs - |segment|) <= toleranceMs ==> r == segment
    ensures !(targetMs <= 0 || segment == [] || Abs(targetMs - |segment|) <= toleranceMs) ==>
      && |r| == targetMs
      && (targetMs > |segment| ==> r[..|segment|] == segment && r[|segment|..] == Silence(targetMs - |segment|))
      && (targetMs <= |segment| ==> r <= segment)
  {
    if targetMs <= 0 then segment
    else if |segment| == 0 then segment
    else
      var diff := targetMs - |segment|;
      if Abs(diff) <= toleranceMs then segment
      else if diff > 0 then segment + Silence(diff)
      else segment[..targetMs]
  }

  /** Aligning is never a loss of leading audio: the original (or its first `target` ms)
      always begins the result. */
  lemma AlignKeepsHead(segment: Audio, targetMs: int, toleranceMs: int)
    ensures var r := AlignSegmentDuration(segment, targetMs, toleranceMs);
      var n := if |r| < |segment| then |r| else |segment|;
      r[..n] == segment[..n]
  {
  }

  // ---------------------------------------------------------------- timeline

  datatype Subtitle = Subtitle(start: SrtTime, end: SrtTime, text: string)

  /** What one subtitle contributes: its start in ms and its fitted segment; None when the
      subtitle is skipped (blank raw text, or nothing left once the label is removed). */
  datatype Placement = Placement(startMs: int, segment: Audio)

  function Render(sub: Subtitle, speakerVoices: map<string, string>, defaultVoice: string,
                  toleranceMs: int, synth: (string, string) -> Audio): Option<Placement>
  {
    var raw := Strip(sub.text);
    if raw == [] then None
    else
      var parsed := ParseSpeakerAndText(raw);
      Speak(sub, parsed.0, parsed.1, speakerVoices, defaultVoice, toleranceMs, synth)
  }

  /** The segment for a parsed subtitle: nothing when no text is left, otherwise the text in
      the speaker's voice, fitted to the subtitle's slot when the slot is positive. */
  function Speak(sub: Subtitle, speaker: Option<string>, cleaned: string, speakerVoices: map<string, string>,
                 defaultVoice: string, toleranceMs: int, synth: (string, string) -> Audio): Option<Placement>
  {
    if cleaned == [] then None
    else
      var voice := GetVoiceForSpeaker(speaker, speakerVoices, defaultVoice);
      var startMs := SrtTimeToMilliseconds(sub.start);
      var target := SrtTimeToMilliseconds(sub.end) - startMs;
      var spoken := synth(cleaned, voice);
      Some(Placement(startMs, if target > 0 then AlignSegmentDuration(spoken, target, toleranceMs) else spoken))
  }

  lemma RenderParsed(sub: Subtitle, speakerVoices: map<string, string>, defaultVoice: string,
                     toleranceMs: int, synth: (string, string) -> Audio, speaker: Option<string>, cleaned: string)
    requires Strip(sub.text) != [] && ParseSpeakerAndText(Strip(sub.text)) == (speaker, cleaned)
    ensures Render(sub, speakerVoices, defaultVoice, toleranceMs, synth)
         == Speak(sub, speaker, cleaned, speakerVoices, defaultVoice, toleranceMs, synth)
  {
  }

  /** The voice a subtitle is spoken in: the mapped voice of its label when the label is a key
      of `speakerVoices`, and `defaultVoice` when it has no label or an unmapped one. */
  lemma RenderVoice(sub: Subtitle, speakerVoices: map<string, string>, defaultVoice: string,
                    toleranceMs: int, synth: (string, string) -> Audio)
    requires Strip(sub.text) != [] && ParseSpeakerAndText(Strip(sub.text)).1 != []
    ensures var (speaker, cleaned) := ParseSpeakerAndText(Strip(sub.text));
      var voice := if speaker.Some? && speaker.value in speakerVoices then speakerVoices[speaker.value] else defaultVoice;
      var startMs := SrtTimeToMilliseconds(sub.start);
      var target := SrtTimeToMilliseconds(sub.end) - startMs;
      Render(sub, speakerVoices, defaultVoice, toleranceMs, synth)
        == Some(Placement(startMs, if target > 0 then AlignSegmentDuration(synth(cleaned, voice), target, toleranceMs)
                                   else synth(cleaned, voice)))
  {
    var raw := Strip(sub.text);
    var parsed := ParseSpeakerAndText(raw);
    ParsedLabelNonEmpty(raw);
    RenderParsed(sub, speakerVoices, defaultVoice, toleranceMs, synth, parsed.0, parsed.1);
    SpeakVoice(sub, parsed.0, parsed.1, speakerVoices, defaultVoice, toleranceMs, synth);
  }

  lemma SpeakVoice(sub: Subtitle, speaker: Option<string>, cleaned: string, speakerVoices: map<string, string>,
                   defaultVoice: string, toleranceMs: int, synth: (string, string) -> Audio)
    requires cleaned != [] && (speaker.Some? ==> speaker.value != [])
    ensures var voice := if speaker.Some? && speaker.value in speakerVoices then speakerVoices[speaker.value] else defaultVoice;
      var startMs := SrtTimeToMilliseconds(sub.start);
      var target := SrtTimeToMilliseconds(sub.end) - startMs;
      Speak(sub, speaker, cleaned, speakerVoices, defaultVoice, toleranceMs, synth)
        == Some(Placement(startMs, if target > 0 then AlignSegmentDuration(synth(cleaned, voice), target, toleranceMs)
                                   else synth(cleaned, voice)))
  {
  }

  /** A label found by the parser is never empty, so it passes `if speaker_name`. */
  lemma ParsedLabelNonEmpty(raw: string)
    ensures var r := ParseSpeakerAndText(raw); r.0.Some? ==> r.0.value != []
  {
    ParseSpeakerAndTextMeaning(raw);
  }

  /** Appends a segment, first filling with silence up to `startMs` when the track is shorter. */
  function Place(audio: Audio, p: Placement): (r: Audio)
    ensures |r| >= |audio| && r[..|audio|] == audio
    ensures p.startMs > |audio| ==>
      (|r| == p.startMs + |p.segment|
       && r[|audio|..p.startMs] == Silence(p.startMs - |audio|) && r[p.startMs..] == p.segment)
    ensures p.startMs <= |audio| ==> r == audio + p.segment
  {
    if p.startMs > |audio| then audio + Silence(p.startMs - |audio|) + p.segment else audio + p.segment
  }

  /** Placing is padding (when the track is short of the start) followed by appending. */
  lemma PlaceIsPadThenAppend(audio: Audio, p: Placement)
    ensures Place(audio, p) == (if p.startMs > |audio| then audio + Silence(p.startMs - |audio|) else audio) + p.segment
  {
  }

  /** What each subtitle contributes, in subtitle order. */
  function Placements(subs: seq<Subtitle>, speakerVoices: map<string, string>, defaultVoice: string,
                      toleranceMs: int, synth: (string, string) -> Audio): (ps: seq<Option<Placement>>)
    ensures |ps| == |subs|
    ensures forall i :: 0 <= i < |subs| ==> ps[i] == Render(subs[i], speakerVoices, defaultVoice, toleranceMs, synth)
  {
    seq(|subs|, i requires 0 <= i < |subs| => Render(subs[i], speakerVoices, defaultVoice, toleranceMs, synth))
  }

  /** The track after the given contributions, placed one after the other. */
  function Assemble(ps: seq<Option<Placement>>): Audio {
    if ps == [] then []
    else
      var before := Assemble(ps[..|ps| - 1]);
      match ps[|ps| - 1]
      case None => before
      case Some(p) => Place(before, p)
  }

  /** Where the `i`th contribution lands: at its start, or right after the audio before it
      when that audio already runs past its start. */
  function Offset(ps: seq<Option<Placement>>, i: nat): int
    requires i < |ps| && ps[i].Some?
  {
    var before := |Assemble(ps[..i])|;
    if ps[i].value.startMs > before then ps[i].value.startMs else before
  }

  /** The voiceover track of the whole subtitle file. */
  function Timeline(subs: seq<Subtitle>, speakerVoices: map<string, string>, defaultVoice: string,
                    toleranceMs: int, synth: (string, string) -> Audio): Audio
  {
    Assemble(Placements(subs, speakerVoices, defaultVoice, toleranceMs, synth))
  }

  lemma AssembleStep(ps: seq<Option<Placement>>, i: nat)
    requires i < |ps|
    ensures Assemble(ps[..i + 1]) ==
      match ps[i]
      case None => Assemble(ps[..i])
      case Some(p) => Place(Assemble(ps[..i]), p)
  {
    assert ps[..i + 1][..i] == ps[..i];
  }

  /** Later subtitles only ever add to the end: the track of a prefix is a prefix of the track. */
  lemma {:induction false} AssembleGrows(ps: seq<Option<Placement>>, n: nat)
    requires n <= |ps|
    ensures Assemble(ps[..n]) <= Assemble(ps)
    decreases |ps| - n
  {
    if n < |ps| {
      AssembleGrows(ps, n + 1);
      AssembleStep(ps, n);
      var before, after := Assemble(ps[..n]), Assemble(ps[..n + 1]);
      assert before <= after by {
        if ps[n].Some? {
          assert after == Place(before, ps[n].value);
        }
      }
      PrefixTrans(before, after, Assemble(ps));
    } else {
      assert ps[..n] == ps;
    }
  }

  /** Every spoken subtitle plays intact, never before its start time, and in the final track. */
  lemma PlacedSegmentIntact(ps: seq<Option<Placement>>, i: nat)
    requires i < |ps| && ps[i].Some?
    ensures var p, off := ps[i].value, Offset(ps, i);
      && off >= p.startMs
      && off + |p.segment| <= |Assemble(ps)|
      && Assemble(ps)[off..off + |p.segment|] == p.segment
  {
    var before, p := Assemble(ps[..i]), ps[i].value;
    AssembleStep(ps, i);
    assert Assemble(ps[..i + 1]) == Place(before, p);
    AssembleGrows(ps, i + 1);
    SegmentInTrack(before, p, Assemble(ps));
    assert Offset(ps, i) == if p.startMs > |before| then p.startMs else |before|;
  }

  /** A segment placed on `before` sits intact in any track that extends the result. */
  lemma SegmentInTrack(before: Audio, p: Placement, whole: Audio)
    requires Place(before, p) <= whole
    ensures var off := if p.startMs > |before| then p.startMs else |before|;
      off + |p.segment| <= |whole| && whole[off..off + |p.segment|] == p.segment
  {
    var off := if p.startMs > |before| then p.startMs else |before|;
    var upto := Place(before, p);
    PlaceEndsWithSegment(before, p);
    PrefixSlice(upto, whole, off, off + |p.segment|);
    assert upto[off..off + |p.segment|] == upto[off..];
  }

  lemma PlaceEndsWithSegment(audio: Audio, p: Placement)
    ensures var off := if p.startMs > |audio| then p.startMs else |audio|;
      |Place(audio, p)| == off + |p.segment| && Place(audio, p)[off..] == p.segment
  {
  }

  lemma PrefixTrans<T>(a: seq<T>, b: seq<T>, c: seq<T>)
    requires a <= b && b <= c
    ensures a <= c
  {
    assert c[..|a|] == b[..|a|];
  }

  lemma PrefixSlice<T>(a: seq<T>, b: seq<T>, i: int, j: int)
    requires a <= b && 0 <= i <= j <= |a|
    ensures b[i..j] == a[i..j]
  {
  }

  /** Nothing is placed before the first contribution: the track is silent up to the start of
      the first spoken subtitle. */
  lemma LeadingSilence(ps: seq<Option<Placement>>, i: nat)
    requires i < |ps| && ps[i].Some?
    requires forall j :: 0 <= j < i ==> ps[j].None?
    ensures Assemble(ps[..i]) == []
    ensures ps[i].value.startMs >= 0 ==>
      Assemble(ps[..i + 1])[..ps[i].value.startMs] == Silence(ps[i].value.startMs)
  {
    var q := ps[..i];
    assert forall j :: 0 <= j < |q| ==> q[j].None? by {
      forall j | 0 <= j < |q| ensures q[j].None? { assert q[j] == ps[j]; }
    }
    NoSpokenNoAudio(q);
    AssembleStep(ps, i);
  }

  lemma {:induction false} NoSpokenNoAudio(ps: seq<Option<Placement>>)
    requires forall j :: 0 <= j < |ps| ==> ps[j].None?
    ensures Assemble(ps) == []
  {
    if ps != [] {
      var q := ps[..|ps| - 1];
      assert forall j :: 0 <= j < |q| ==> q[j].None? by {
        forall j | 0 <= j < |q| ensures q[j].None? { assert q[j] == ps[j]; }
      }
      NoSpokenNoAudio(q);
    }
  }

  /** The per-subtitle part of `build_voiceover_from_srt`: whether the subtitle is spoken, where
      it starts and the fitted segment. */
  method RenderSubtitle(sub: Subtitle, speakerVoices: map<string, string>, defaultVoice: string,
                        toleranceMs: int, synth: (string, string) -> Audio)
    returns (spoken: bool, startMs: int, segment: Audio)
    ensures Render(sub, speakerVoices, defaultVoice, toleranceMs, synth) == if spoken then Some(Placement(startMs, segment)) else None
  {
    var rawText := Strip(sub.text);
    if rawText == [] {
      return false, 0, [];
    }
    var parsed := ParseSpeakerAndText(rawText);
    var speaker, cleanedText := parsed.0, parsed.1;
    RenderParsed(sub, speakerVoices, defaultVoice, toleranceMs, synth, speaker, cleanedText);
    if cleanedText == [] {
      return false, 0, [];
    }
    var voice := GetVoiceForSpeaker(speaker, speakerVoices, defaultVoice);
    startMs := SrtTimeToMilliseconds(sub.start);
    var endMs := SrtTimeToMilliseconds(sub.end);
    var targetDuration := endMs - startMs;
    segment := synth(cleanedText, voice);
    if targetDuration > 0 {
      segment := AlignSegmentDuration(segment, targetDuration, toleranceMs);
    }
    spoken := true;
  }

  /** `build_voiceover_from_srt` without the file handling: walks the subtitles in order,
      pads with silence up to each start and appends each fitted segment. */
  method BuildVoiceover(subs: seq<Subtitle>, speakerVoices: map<string, string>, defaultVoice: string,
                        toleranceMs: int, synth: (string, string) -> Audio)
    returns (finalAudio: Audio, positionMs: int)
    ensures positionMs == |finalAudio|
    ensures finalAudio == Timeline(subs, speakerVoices, defaultVoice, toleranceMs, synth)
  {
    ghost var ps := Placements(subs, speakerVoices, defaultVoice, toleranceMs, synth);
    finalAudio := Silence(0);
    positionMs := 0;
    for idx := 0 to |subs|
      invariant positionMs == |finalAudio|
      invariant finalAudio == Assemble(ps[..idx])
    {
      AssembleStep(ps, idx);
      var spoken, startMs, segment := RenderSubtitle(subs[idx], speakerVoices, defaultVoice, toleranceMs, synth);
      if spoken {
        finalAudio, positionMs := PlaceSegment(finalAudio, positionMs, startMs, segment);
      }
    }
    assert ps[..|subs|] == ps;
  }

  /** The assembly part of `build_voiceover_from_srt`: silence up to the start when the track is
      shorter, then the segment. */
  method PlaceSegment(audio: Audio, position: int, startMs: int, segment: Audio)
    returns (finalAudio: Audio, positionMs: int)
    requires position == |audio|
    ensures finalAudio == Place(audio, Placement(startMs, segment))
    ensures positionMs == |finalAudio|
  {
    finalAudio, positionMs := audio, position;
    if startMs > positionMs {
      var gap := startMs - positionMs;
      finalAudio := finalAudio + Silence(gap);
      positionMs := startMs;
    }
    finalAudio := finalAudio + segment;
    positionMs := positionMs + |segment|;
    PlaceIsPadThenAppend(audio, Placement(startMs, segment));
  }
}
