/**
  Exporting word timings: the WebVTT and SubRip time strings, the WebVTT, SubRip and CSV
  exporters (each writes one block per word, modelled as building the file's text or rows),
  and the frame timecode of the Final Cut Pro exporter.

  Numbers are written as Python's `format` writes them: `{n:02d}` pads with zeros after any
  sign to at least two characters, `{n}` writes the plain decimal digits.
*/
module Export {
  import opened Wrappers
  import opened Text
  import opened Numbers
  import opened Timings
  import opened Core
  import opened Transcribe

  // ---------------------------------------------------------------- decimal numbers

  predicate IsDigit(c: char) { '0' <= c <= '9' }

  predicate IsDigits(s: string) {
    forall i :: 0 <= i < |s| ==> IsDigit(s[i])
  }

  function Digit(d: nat): (c: char)
    requires d < 10
    ensures IsDigit(c) && c as int - '0' as int == d
  {
    ('0' as int + d) as char
  }

  /** The number a string of decimal digits denotes. */
  function DigitsValue(s: string): nat
    requires IsDigits(s)
  {
    if s == [] then 0 else DigitsValue(s[..|s| - 1]) * 10 + (s[|s| - 1] as int - '0' as int)
  }

  function Pow10(k: nat): (p: nat)
    ensures p >= 1
  {
    if k == 0 then 1 else 10 * Pow10(k - 1)
  }

  /** `str(n)` for a natural number: its decimal digits, with no leading zero. */
  function DecimalDigits(n: nat): (r: string)
    ensures r != [] && IsDigits(r)
    ensures |r| > 1 ==> r[0] != '0'
  {
    if n < 10 then [Digit(n)] else DecimalDigits(n / 10) + [Digit(n % 10)]
  }

  /** The digits read back as the number. */
  lemma {:induction false} DecimalDigitsValue(n: nat)
    ensures DigitsValue(DecimalDigits(n)) == n
  {
    if n >= 10 {
      DecimalDigitsValue(n / 10);
      var r := DecimalDigits(n);
      assert r[..|r| - 1] == DecimalDigits(n / 10);
    }
  }

  /** A number below `10^k` takes at most `k` digits. */
  lemma {:induction false} DecimalDigitsLength(n: nat, k: nat)
    requires k >= 1 && n < Pow10(k)
    ensures |DecimalDigits(n)| <= k
  {
    if n >= 10 {
      assert n / 10 < Pow10(k - 1);
      DecimalDigitsLength(n / 10, k - 1);
    }
  }

  function Zeros(k: nat): (r: string)
    ensures |r| == k && IsDigits(r)
  {
    if k == 0 then [] else Zeros(k - 1) + ['0']
  }

  /** Leading zeros do not change the value. */
  lemma {:induction false} ZerosValue(k: nat, s: string)
    requires IsDigits(s)
    ensures IsDigits(Zeros(k) + s) && DigitsValue(Zeros(k) + s) == DigitsValue(s)
  {
    if s == [] {
      assert Zeros(k) + s == Zeros(k);
      if k > 0 {
        ZerosValue(k - 1, []);
        assert Zeros(k)[..k - 1] == Zeros(k - 1) + [];
      }
    } else {
      var init := s[..|s| - 1];
      ZerosValue(k, init);
      assert (Zeros(k) + s)[..|Zeros(k) + s| - 1] == Zeros(k) + init;
    }
  }

  /** Zeros in front of `s` up to `width` characters. */
  function Pad(s: string, width: nat): (r: string)
    ensures |r| == if |s| < width then width else |s|
  {
    if |s| < width then Zeros(width - |s|) + s else s
  }

  /** Python's `format(n, '0<width>d')`: the digits of `|n|` after a minus sign for a negative
      `n`, padded with zeros after the sign to at least `width` characters. */
  function FormatInt(n: int, width: nat): string {
    if n >= 0 then Pad(DecimalDigits(n), width)
    else "-" + Pad(DecimalDigits(-n), if width > 0 then width - 1 else 0)
  }

  /** A non-negative number is written as digits that read back as the number, at least
      `width` of them, and exactly `width` when it has no more digits than that. */
  lemma FormatIntMeaning(n: int, width: nat)
    requires n >= 0
    ensures var r := FormatInt(n, width);
      && IsDigits(r) && DigitsValue(r) == n && |r| >= width
      && (width >= 1 && n < Pow10(width) ==> |r| == width)
  {
    var d := DecimalDigits(n);
    assert FormatInt(n, width) == Pad(d, width);
    PadMeaning(d, width);
    DecimalDigitsValue(n);
    if width >= 1 && n < Pow10(width) {
      DecimalDigitsLength(n, width);
    }
  }

  /** Padding keeps a string of digits and its value, and reaches the width. */
  lemma PadMeaning(s: string, width: nat)
    requires IsDigits(s)
    ensures var r := Pad(s, width);
      && IsDigits(r) && DigitsValue(r) == DigitsValue(s) && |r| >= width
      && (|s| <= width ==> |r| == width)
  {
    if |s| < width {
      ZerosValue(width - |s|, s);
    }
  }

  /** Writes `n` and reads back its value and digit count `width`, as one lemma for callers. */
  lemma FormatFixed(n: int, width: nat)
    requires width >= 1 && 0 <= n < Pow10(width)
    ensures IsDigits(FormatInt(n, width)) && |FormatInt(n, width)| == width
    ensures DigitsValue(FormatInt(n, width)) == n
  {
    FormatIntMeaning(n, width);
  }

  // ---------------------------------------------------------------- time strings

  /** `HH:MM:SS` followed by `sep` and three digits of milliseconds. */
  function ClockText(t: SrtTime, sep: char): string {
    FormatInt(t.hours, 2) + ":" + FormatInt(t.minutes, 2) + ":" + FormatInt(t.seconds, 2)
      + [sep] + FormatInt(t.milliseconds, 3)
  }

  /** `seconds_to_vtt_time`. */
  function VttTime(seconds: real): string {
    ClockText(SecondsToSrtTime(seconds), '.')
  }

  /** `seconds_to_srt_time` of the exporter. */
  function SrtTimeText(seconds: real): string {
    ClockText(SecondsToSrtTime(seconds), ',')
  }

  /** The parts of a clock text after the hours have fixed widths. */
  lemma ClockTextLayout(t: SrtTime, sep: char)
    requires 0 <= t.minutes < 60 && 0 <= t.seconds < 60 && 0 <= t.milliseconds < 1000
    ensures var s, h := ClockText(t, sep), FormatInt(t.hours, 2);
      && |s| == |h| + 10
      && s[..|h|] == h
      && s[|h|] == ':' && s[|h| + 3] == ':' && s[|h| + 6] == sep
      && s[|h| + 1..|h| + 3] == FormatInt(t.minutes, 2)
      && s[|h| + 4..|h| + 6] == FormatInt(t.seconds, 2)
      && s[|h| + 7..] == FormatInt(t.milliseconds, 3)
  {
    FormatFixed(t.minutes, 2);
    FormatFixed(t.seconds, 2);
    FormatFixed(t.milliseconds, 3);
    FieldsLayout(FormatInt(t.hours, 2), FormatInt(t.minutes, 2), FormatInt(t.seconds, 2), sep,
                 FormatInt(t.milliseconds, 3));
  }

  /** Where the fields of `h:m:s` `sep` `ms` sit when the last three have two, two and three
      characters. */
  lemma FieldsLayout(h: string, m: string, s: string, sep: char, ms: string)
    requires |m| == 2 && |s| == 2 && |ms| == 3
    ensures var r := h + ":" + m + ":" + s + [sep] + ms;
      && |r| == |h| + 10 && r[..|h|] == h
      && r[|h|] == ':' && r[|h| + 3] == ':' && r[|h| + 6] == sep
      && r[|h| + 1..|h| + 3] == m && r[|h| + 4..|h| + 6] == s && r[|h| + 7..] == ms
  {
  }

  /** The WebVTT and SubRip time strings of the same time have the same length and differ
      only in the separator before the milliseconds, '.' against ','. */
  lemma VttAndSrtDifferInSeparator(seconds: real)
    ensures var v, s := VttTime(seconds), SrtTimeText(seconds);
      && |v| == |s| && |v| >= 4
      && v[|v| - 4] == '.' && s[|s| - 4] == ','
      && forall i :: 0 <= i < |v| && i != |v| - 4 ==> v[i] == s[i]
  {
    var t := SecondsToSrtTime(seconds);
    ClockTextLayout(t, '.');
    ClockTextLayout(t, ',');
    var v, s := ClockText(t, '.'), ClockText(t, ',');
    var h := FormatInt(t.hours, 2);
    forall i | 0 <= i < |v| && i != |v| - 4 ensures v[i] == s[i] {
      if i < |h| {
        assert v[..|h|][i] == s[..|h|][i];
      } else if |h| < i < |h| + 3 {
        assert v[|h| + 1..|h| + 3][i - |h| - 1] == s[|h| + 1..|h| + 3][i - |h| - 1];
      } else if |h| + 3 < i < |h| + 6 {
        assert v[|h| + 4..|h| + 6][i - |h| - 4] == s[|h| + 4..|h| + 6][i - |h| - 4];
      } else if i > |h| + 6 {
        assert v[|h| + 7..][i - |h| - 7] == s[|h| + 7..][i - |h| - 7];
      }
    }
  }

  /** For a non-negative time the string reads back as the time's components: at least two
      digits of hours, two of minutes and seconds, and three of milliseconds. */
  lemma VttTimeReadsBack(seconds: real)
    requires seconds >= 0.0
    ensures var v, t := VttTime(seconds), SecondsToSrtTime(seconds); var n := |v|;
      && n >= 12
      && IsDigits(v[..n - 10]) && DigitsValue(v[..n - 10]) == t.hours
      && v[n - 10] == ':' && IsDigits(v[n - 9..n - 7]) && DigitsValue(v[n - 9..n - 7]) == t.minutes
      && v[n - 7] == ':' && IsDigits(v[n - 6..n - 4]) && DigitsValue(v[n - 6..n - 4]) == t.seconds
      && v[n - 4] == '.' && IsDigits(v[n - 3..]) && DigitsValue(v[n - 3..]) == t.milliseconds
  {
    ClockTextReadsBack(SecondsToSrtTime(seconds), '.');
  }

  /** The same for any time with in-range components and a separator. */
  lemma ClockTextReadsBack(t: SrtTime, sep: char)
    requires t.hours >= 0 && 0 <= t.minutes < 60 && 0 <= t.seconds < 60 && 0 <= t.milliseconds < 1000
    ensures var v := ClockText(t, sep); var n := |v|;
      && n >= 12
      && IsDigits(v[..n - 10]) && DigitsValue(v[..n - 10]) == t.hours
      && v[n - 10] == ':' && IsDigits(v[n - 9..n - 7]) && DigitsValue(v[n - 9..n - 7]) == t.minutes
      && v[n - 7] == ':' && IsDigits(v[n - 6..n - 4]) && DigitsValue(v[n - 6..n - 4]) == t.seconds
      && v[n - 4] == sep && IsDigits(v[n - 3..]) && DigitsValue(v[n - 3..]) == t.milliseconds
  {
    var h := FormatInt(t.hours, 2);
    ClockTextLayout(t, sep);
    FormatIntMeaning(t.hours, 2);
    FormatFixed(t.minutes, 2);
    FormatFixed(t.seconds, 2);
    FormatFixed(t.milliseconds, 3);
  }

  // ---------------------------------------------------------------- per-word exporters

  /** `word.get('word', '').strip()`. */
  function SpokenText(w: WordTiming): string {
    Strip(WordOr(w, ""))
  }

  /** `word.get('start', 0.0)`. */
  function ExportStart(w: WordTiming): real {
    StartOr(w, 0.0)
  }

  /** `word.get('end', start)`. */
  function ExportEnd(w: WordTiming): real {
    EndOr(w, ExportStart(w))
  }

  /** The positions whose flag is set, in increasing order. */
  function Marked(flags: seq<bool>): (r: seq<nat>)
    ensures forall k :: 0 <= k < |r| ==> r[k] < |flags|
  {
    if flags == [] then []
    else
      var n := |flags| - 1;
      Marked(flags[..n]) + if flags[n] then [n] else []
  }

  /** A position is marked exactly when its flag is set, and marks come in increasing order. */
  lemma {:induction false} MarkedMeaning(flags: seq<bool>)
    ensures var r := Marked(flags);
      && (forall j, k :: 0 <= j < k < |r| ==> r[j] < r[k])
      && (forall p :: 0 <= p < |flags| ==> (p in r <==> flags[p]))
  {
    if flags != [] {
      var n := |flags| - 1;
      var init := flags[..n];
      MarkedMeaning(init);
      var r0 := Marked(init);
      assert Marked(flags) == r0 + if flags[n] then [n] else [];
      forall p | 0 <= p < |flags| ensures p in Marked(flags) <==> flags[p] {
        if p < n {
          assert init[p] == flags[p];
        }
      }
    }
  }

  /** For each word, whether it has non-blank text. */
  function TextFlags(words: seq<WordTiming>): (r: seq<bool>)
    ensures |r| == |words| && forall p :: 0 <= p < |words| ==> r[p] == (SpokenText(words[p]) != [])
  {
    seq(|words|, p requires 0 <= p < |words| => SpokenText(words[p]) != [])
  }

  /** The positions of the words with non-blank text, the ones that get a cue. */
  function Spoken(words: seq<WordTiming>): (r: seq<nat>)
    ensures forall k :: 0 <= k < |r| ==> r[k] < |words|
  {
    Marked(TextFlags(words))
  }

  lemma SpokenSnoc(words: seq<WordTiming>, i: nat)
    requires i < |words|
    ensures Spoken(words[..i + 1]) == Spoken(words[..i]) + if SpokenText(words[i]) != [] then [i] else []
  {
    var f := TextFlags(words[..i + 1]);
    assert f[..i] == TextFlags(words[..i]);
  }

  /** The cued positions are exactly the words with non-blank text, in increasing order. */
  lemma SpokenMeaning(words: seq<WordTiming>)
    ensures var r := Spoken(words);
      && (forall j, k :: 0 <= j < k < |r| ==> r[j] < r[k])
      && (forall p :: 0 <= p < |words| ==> (p in r <==> SpokenText(words[p]) != []))
  {
    MarkedMeaning(TextFlags(words));
  }

  /** One WebVTT cue: the times, then the text, then a blank line. */
  function VttCue(w: WordTiming): string {
    VttTimesLine(w) + TextLines(w)
  }

  /** The line with a cue's start and end. */
  function VttTimesLine(w: WordTiming): string {
    VttTime(ExportStart(w)) + " --> " + VttTime(ExportEnd(w)) + "\n"
  }

  /** A cue's text, then a blank line. */
  function TextLines(w: WordTiming): string {
    SpokenText(w) + "\n\n"
  }

  /** The cues of the words at the given positions, in that order. */
  function VttCues(words: seq<WordTiming>, positions: seq<nat>): string
    requires forall k :: 0 <= k < |positions| ==> positions[k] < |words|
  {
    if positions == [] then []
    else
      var n := |positions| - 1;
      VttCues(words, positions[..n]) + VttCue(words[positions[n]])
  }

  /** The first line of a WebVTT file, and the blank line after it. */
  const VttHeader: string := "WEBVTT\n\n"

  /** The WebVTT file: the header and a blank line, then one cue per word with text. */
  function VttDocument(words: seq<WordTiming>): string {
    VttHeader + VttCues(words, Spoken(words))
  }

  /** `export_word_timings_vtt`, writing into a string. */
  method ExportWordTimingsVtt(words: seq<WordTiming>) returns (out: string)
    ensures out == VttDocument(words)
  {
    out := VttHeader;
    for i := 0 to |words|
      invariant out == VttHeader + VttCues(words, Spoken(words[..i]))
    {
      VttStep(words, i, out);
      out := WriteVttCue(out, words[i]);
    }
    assert words[..|words|] == words;
  }

  /** The body of the exporter's loop: the cue of one word, written only when the word has
      text. */
  method WriteVttCue(out: string, w: WordTiming) returns (result: string)
    ensures SpokenText(w) != [] ==> result == out + VttTimesLine(w) + TextLines(w)
    ensures SpokenText(w) == [] ==> result == out
  {
    result := out;
    var wordText := Strip(WordOr(w, ""));
    var start := StartOr(w, 0.0);
    var end := EndOr(w, start);
    if wordText != [] {
      var startVtt := VttTime(start);
      var endVtt := VttTime(end);
      result := result + (startVtt + " --> " + endVtt + "\n");
      result := result + (wordText + "\n\n");
    }
  }

  /** What one more word adds to the WebVTT text. */
  lemma VttStep(words: seq<WordTiming>, i: nat, out: string)
    requires i < |words| && out == VttHeader + VttCues(words, Spoken(words[..i]))
    ensures SpokenText(words[i]) != [] ==>
      out + VttTimesLine(words[i]) + TextLines(words[i]) == VttHeader + VttCues(words, Spoken(words[..i + 1]))
    ensures SpokenText(words[i]) == [] ==> out == VttHeader + VttCues(words, Spoken(words[..i + 1]))
  {
    SpokenSnoc(words, i);
    var sp := Spoken(words[..i]);
    if SpokenText(words[i]) != [] {
      AppendTwo(out, VttTimesLine(words[i]), TextLines(words[i]));
      AppendTwo(VttHeader, VttCues(words, sp), VttCue(words[i]));
      VttCuesSnoc(words, sp, i);
    } else {
      assert sp + [] == sp;
    }
  }

  lemma AppendTwo(s: string, a: string, b: string)
    ensures s + a + b == s + (a + b)
  {
  }

  lemma VttCuesSnoc(words: seq<WordTiming>, positions: seq<nat>, i: nat)
    requires i < |words| && forall k :: 0 <= k < |positions| ==> positions[k] < |words|
    ensures VttCues(words, positions + [i]) == VttCues(words, positions) + VttCue(words[i])
  {
    assert (positions + [i])[..|positions|] == positions;
  }

  /** One SubRip block: the number, the times, the text, a blank line. */
  function SrtBlock(number: nat, w: WordTiming): string {
    (DecimalDigits(number) + "\n") + SrtTimesLine(w) + TextLines(w)
  }

  /** The line with a block's start and end. */
  function SrtTimesLine(w: WordTiming): string {
    SrtTimeText(ExportStart(w)) + " --> " + SrtTimeText(ExportEnd(w)) + "\n"
  }

  /** The blocks of the words at the given positions, each numbered by its position from 1. */
  function SrtBlocks(words: seq<WordTiming>, positions: seq<nat>): string
    requires forall k :: 0 <= k < |positions| ==> positions[k] < |words|
  {
    if positions == [] then []
    else
      var n := |positions| - 1;
      SrtBlocks(words, positions[..n]) + SrtBlock(positions[n] + 1, words[positions[n]])
  }

  /** The SubRip file. */
  function SrtDocument(words: seq<WordTiming>): string {
    SrtBlocks(words, Spoken(words))
  }

  /** `export_word_timings_srt`, writing into a string. */
  method ExportWordTimingsSrt(words: seq<WordTiming>) returns (out: string)
    ensures out == SrtDocument(words)
  {
    out := "";
    for i := 0 to |words|
      invariant out == SrtBlocks(words, Spoken(words[..i]))
    {
      SrtStep(words, i, out);
      out := WriteSrtBlock(out, i + 1, words[i]);
    }
    assert words[..|words|] == words;
  }

  /** The body of the exporter's loop: the numbered block of one word, written only when the
      word has text. */
  method WriteSrtBlock(out: string, number: nat, w: WordTiming) returns (result: string)
    ensures SpokenText(w) != [] ==>
      result == out + (DecimalDigits(number) + "\n") + SrtTimesLine(w) + TextLines(w)
    ensures SpokenText(w) == [] ==> result == out
  {
    result := out;
    var wordText := Strip(WordOr(w, ""));
    var start := StartOr(w, 0.0);
    var end := EndOr(w, start);
    if wordText != [] {
      var startSrt := SrtTimeText(start);
      var endSrt := SrtTimeText(end);
      result := result + (DecimalDigits(number) + "\n");
      result := result + (startSrt + " --> " + endSrt + "\n");
      result := result + (wordText + "\n\n");
    }
  }

  /** What one more word adds to the SubRip text. */
  lemma SrtStep(words: seq<WordTiming>, i: nat, out: string)
    requires i < |words| && out == SrtBlocks(words, Spoken(words[..i]))
    ensures SpokenText(words[i]) != [] ==>
      out + (DecimalDigits(i + 1) + "\n") + SrtTimesLine(words[i]) + TextLines(words[i])
        == SrtBlocks(words, Spoken(words[..i + 1]))
    ensures SpokenText(words[i]) == [] ==> out == SrtBlocks(words, Spoken(words[..i + 1]))
  {
    SpokenSnoc(words, i);
    var sp := Spoken(words[..i]);
    if SpokenText(words[i]) != [] {
      AppendThree(out, DecimalDigits(i + 1) + "\n", SrtTimesLine(words[i]), TextLines(words[i]));
      SrtBlocksSnoc(words, sp, i);
    } else {
      assert sp + [] == sp;
    }
  }

  lemma AppendThree(s: string, a: string, b: string, c: string)
    ensures s + a + b + c == s + (a + b + c)
  {
  }

  lemma SrtBlocksSnoc(words: seq<WordTiming>, positions: seq<nat>, i: nat)
    requires i < |words| && forall k :: 0 <= k < |positions| ==> positions[k] < |words|
    ensures SrtBlocks(words, positions + [i]) == SrtBlocks(words, positions) + SrtBlock(i + 1, words[i])
  {
    var ps := positions + [i];
    assert ps[..|positions|] == positions && ps[|positions|] == i;
    assert SrtBlocks(words, ps) == SrtBlocks(words, ps[..|positions|]) + SrtBlock(ps[|positions|] + 1, words[ps[|positions|]]);
  }

  /** Three words, the middle one blank: only the outer two are cued. */
  lemma SpokenSkipsBlankWord(words: seq<WordTiming>)
    requires |words| == 3
    requires SpokenText(words[0]) != [] && SpokenText(words[1]) == [] && SpokenText(words[2]) != []
    ensures Spoken(words) == [0, 2]
  {
    var flags: seq<bool> := [true, false, true];
    assert TextFlags(words) == flags;
    assert flags[..2][..1] == [true] && flags[..1] == [true];
    assert Marked([true]) == [0];
    assert Marked(flags[..2]) == [0];
  }

  /** Three words, the middle one blank: the file holds the blocks of the first and third
      words only, which by `SrtBlocksOfTwo` are numbered 1 and 3. */
  lemma SrtNumberingSkipsBlankWords(words: seq<WordTiming>)
    requires |words| == 3
    requires SpokenText(words[0]) != [] && SpokenText(words[1]) == [] && SpokenText(words[2]) != []
    ensures SrtDocument(words) == SrtBlocks(words, [0, 2])
  {
    SpokenSkipsBlankWord(words);
  }

  /** Two blocks, each numbered by its word's 1-based position. */
  lemma SrtBlocksOfTwo(words: seq<WordTiming>, p: nat, q: nat)
    requires p < |words| && q < |words|
    ensures SrtBlocks(words, [p] + [q]) == SrtBlock(p + 1, words[p]) + SrtBlock(q + 1, words[q])
  {
    SrtBlocksOfOne(words, p);
    SrtBlocksSnoc(words, [p], q);
  }

  lemma SrtBlocksOfOne(words: seq<WordTiming>, p: nat)
    requires p < |words|
    ensures SrtBlocks(words, [p]) == SrtBlock(p + 1, words[p])
  {
    var ps: seq<nat> := [p];
    assert ps[..0] == [];
    assert SrtBlocks(words, ps) == SrtBlocks(words, []) + SrtBlock(p + 1, words[p]);
  }

  /** Words that are all blank give a WebVTT file with only its header and an empty SubRip
      file. */
  lemma BlankWordsExportNothing(words: seq<WordTiming>)
    requires forall p :: 0 <= p < |words| ==> SpokenText(words[p]) == []
    ensures VttDocument(words) == VttHeader && SrtDocument(words) == []
  {
    SpokenMeaning(words);
    assert VttHeader + [] == VttHeader;
  }

  /** A word with non-blank text and no end gets a cue that ends when it starts. */
  lemma MissingEndIsStart(w: WordTiming)
    requires w.end.None?
    ensures ExportEnd(w) == ExportStart(w)
    ensures VttCue(w) == VttTime(ExportStart(w)) + " --> " + VttTime(ExportStart(w)) + "\n" + SpokenText(w) + "\n\n"
  {
  }

  // ---------------------------------------------------------------- CSV

  const CsvHeader: seq<string> := ["word_number", "word", "start_seconds", "end_seconds", "duration_seconds"]

  /** A CSV data row, with its numbers as values rather than `%.3f` text. */
  datatype CsvRow = CsvRow(wordNumber: nat, word: string, startSeconds: real, endSeconds: real, durationSeconds: real)

  /** The row of the word at 1-based position `number`. */
  function CsvRowOf(number: nat, w: WordTiming): (r: CsvRow)
    ensures r.wordNumber == number && r.word == SpokenText(w)
    ensures r.startSeconds == ExportStart(w) && r.endSeconds == ExportEnd(w)
    ensures r.durationSeconds == r.endSeconds - r.startSeconds
  {
    var start := StartOr(w, 0.0);
    var end := EndOr(w, start);
    CsvRow(number, Strip(WordOr(w, "")), start, end, end - start)
  }

  /** `export_word_timings_csv`: the header, then one row for every word, blank ones too. */
  method ExportWordTimingsCsv(words: seq<WordTiming>) returns (header: seq<string>, rows: seq<CsvRow>)
    ensures header == CsvHeader
    ensures |rows| == |words| && forall i :: 0 <= i < |words| ==> rows[i] == CsvRowOf(i + 1, words[i])
  {
    header := CsvHeader;
    rows := [];
    for i := 0 to |words|
      invariant |rows| == i && forall k :: 0 <= k < i ==> rows[k] == CsvRowOf(k + 1, words[k])
    {
      var w := words[i];
      var wordText := Strip(WordOr(w, ""));
      var start := StartOr(w, 0.0);
      var end := EndOr(w, start);
      var duration := end - start;
      rows := rows + [CsvRow(i + 1, wordText, start, end, duration)];
    }
  }

  // ---------------------------------------------------------------- frame timecodes

  datatype TimecodeError = ZeroDivision

  /** Hours, minutes, seconds and frames of a time at a frame rate, in `seconds_to_fcpxml_time`:
      the frame count and the frames per second are truncated to integers, and a rate that
      truncates to zero makes the integer division fail. */
  function FcpParts(seconds: real, fps: real): Result<(int, int, int, int), TimecodeError> {
    var totalFrames := Trunc(seconds * fps);
    var base := Trunc(fps);
    if base == 0 then Failure(ZeroDivision)
    else
      var hours := IntFloorDiv(totalFrames, base * 3600);
      var remaining := IntFloorMod(totalFrames, base * 3600);
      var minutes := IntFloorDiv(remaining, base * 60);
      var remaining' := IntFloorMod(remaining, base * 60);
      var secondsPart := IntFloorDiv(remaining', base);
      var frames := IntFloorMod(remaining', base);
      Success((hours, minutes, secondsPart, frames))
  }

  /** The timecode text, `HH:MM:SS:FF`. */
  function FcpTime(seconds: real, fps: real): Result<string, TimecodeError> {
    match FcpParts(seconds, fps)
    case Failure(e) => Failure(e)
    case Success((h, m, s, f)) => Success(FormatInt(h, 2) + ":" + FormatInt(m, 2) + ":" + FormatInt(s, 2) + ":" + FormatInt(f, 2))
  }

  lemma DivBelow(a: int, d: int, k: int)
    requires d > 0 && 0 <= a < k * d
    ensures 0 <= a / d < k
  {
    if a / d >= k {
      assert (a / d) * d >= k * d by {
        MulLe(k, a / d, d);
      }
    }
  }

  lemma MulLe(a: int, b: int, d: int)
    requires a <= b && d > 0
    ensures a * d <= b * d
  {
  }

  /** The timecode fails exactly for a rate below one frame per second in size; otherwise its
      parts add back up to the truncated frame count, and for a positive rate the frames are
      below the rate and the minutes and seconds below 60. */
  lemma FcpPartsMeaning(seconds: real, fps: real)
    ensures FcpParts(seconds, fps).Failure? <==> Trunc(fps) == 0
    ensures FcpParts(seconds, fps).Success? ==>
      var (h, m, s, f) := FcpParts(seconds, fps).value; var base := Trunc(fps);
      && h * (base * 3600) + m * (base * 60) + s * base + f == Trunc(seconds * fps)
      && (base > 0 ==> 0 <= m < 60 && 0 <= s < 60 && 0 <= f < base)
  {
    var base := Trunc(fps);
    if base != 0 {
      var total := Trunc(seconds * fps);
      var remaining := IntFloorMod(total, base * 3600);
      var remaining' := IntFloorMod(remaining, base * 60);
      if base > 0 {
        assert base * 3600 == 60 * (base * 60);
        DivBelow(remaining, base * 60, 60);
        assert base * 60 == 60 * base;
        DivBelow(remaining', base, 60);
      }
    }
  }

  /** A rate that truncates to zero has no timecode. */
  lemma FcpTimeZeroRate(seconds: real, fps: real)
    requires 0.0 <= fps < 1.0
    ensures FcpTime(seconds, fps) == Failure(ZeroDivision)
  {
  }
}
