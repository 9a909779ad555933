/**
  Speaker detection beyond the basic "Name: text" parser: a stricter label test with a
  continuation rule that carries the previous speaker over, name validation, speaker counts
  and statistics over parsed subtitles, and a history of recent speakers.
*/
module SpeakerDetection {
  import opened Wrappers
  import opened Text
  import opened Core

  /** Python truthiness of an optional name: present and not empty. */
  predicate Named(s: Option<string>) {
    s.Some? && s.value != []
  }

  /** `t in s` for strings. */
  predicate HasSubstring(s: string, t: string)
    decreases |s|
  {
    |t| <= |s| && (s[..|t|] == t || HasSubstring(s[1..], t))
  }

  /** Text without a colon holds no "://". */
  lemma {:induction false} NoColonNoUrl(s: string)
    requires !Contains(s, ':')
    ensures !HasSubstring(s, "://")
    decreases |s|
  {
    if 3 <= |s| {
      var url := "://";
      assert url[0] == ':' && s[..3][0] == s[0] && s[0] != ':';
      assert !Contains(s[1..], ':') by {
        forall k | 0 <= k < |s[1..]| ensures s[1..][k] != ':' {
          assert s[1..][k] == s[k + 1];
        }
      }
      NoColonNoUrl(s[1..]);
    }
  }

  // ---------------------------------------------------------------- parse_speaker_and_text_advanced

  /** The advanced label test: the basic one, at most 30 characters, and no "://". */
  predicate IsAdvancedLabel(name: string) {
    IsSpeakerLabel(name) && |name| <= 30 && !HasSubstring(name, "://")
  }

  /** The label the first line carries, if it passes the advanced test. */
  function ExplicitLabel(lines: seq<string>): (r: Option<string>)
    ensures r.Some? ==> lines != [] && SplitAtColon(lines[0]).Some?
  {
    if lines == [] then None
    else
      match LabelCandidate(lines[0])
      case Some(c) => if IsAdvancedLabel(c) then Some(c) else None
      case None => None
  }

  /** The content lines: the label taken off the first line when there is one. */
  function ContentOf(lines: seq<string>): seq<string>
    requires lines != []
  {
    if ExplicitLabel(lines).Some? then LabelledContent(lines) else lines
  }

  /** The words that mark a line as continuing the previous speaker's turn. */
  const ContinuationStarts: seq<string> :=
    ["and", "but", "so", "or", "because", "that", "they", "it", "this", "there", "here"]

  /** The first whitespace-separated word, lower-cased, or "" for blank text. */
  function FirstWord(text: string): string {
    var words := SplitWhitespace(text);
    if words != [] then Lower(words[0]) else ""
  }

  /** The continuation heuristic: a continuation word first, or a first character that is not
      an upper-case letter. */
  predicate LooksLikeContinuation(text: string) {
    FirstWord(text) in ContinuationStarts || (text != [] && !IsUpper(text[0]))
  }

  /** The parser after the non-blank lines have been collected. */
  function ParseAdvancedLines(lines: seq<string>, prevSpeaker: Option<string>): (Option<string>, string) {
    if lines == [] then (None, "")
    else
      var explicit := ExplicitLabel(lines);
      var text := Strip(Join(ContentOf(lines), " "));
      (if explicit.None? && Named(prevSpeaker) && LooksLikeContinuation(text) then prevSpeaker else explicit, text)
  }

  /** `parse_speaker_and_text_advanced`; `use_heuristic` is accepted and not consulted. */
  function ParseSpeakerAndTextAdvanced(raw: string, prevSpeaker: Option<string>, useHeuristic: bool)
    : (Option<string>, string)
  {
    if raw == [] then (None, "") else ParseAdvancedLines(NonBlankLines(raw), prevSpeaker)
  }

  /** Empty or blank input gives no speaker and no text. */
  lemma AdvancedBlank(raw: string, prevSpeaker: Option<string>, useHeuristic: bool)
    requires NonBlankLines(raw) == []
    ensures ParseSpeakerAndTextAdvanced(raw, prevSpeaker, useHeuristic) == (None, "")
  {
  }

  /** Without a previous speaker the two parsers agree exactly unless the first line carries a
      basic label longer than 30 characters, which only the advanced parser rejects. */
  lemma AdvancedLinesAgree(lines: seq<string>)
    ensures ParseAdvancedLines(lines, None) == ParseLines(lines) <==>
      !(SpeakerOf(lines).Some? && |SpeakerOf(lines).value| > 30)
  {
    if lines != [] {
      match LabelCandidate(lines[0])
      case None =>
      case Some(c) =>
        if IsSpeakerLabel(c) {
          SpeakerLabelHasNoColon(c);
          NoColonNoUrl(c);
        }
    }
  }

  /** The same on raw subtitle text. */
  lemma AdvancedAgreesWithBasic(raw: string, useHeuristic: bool)
    ensures var lines := NonBlankLines(raw);
      ParseSpeakerAndTextAdvanced(raw, None, useHeuristic) == ParseSpeakerAndText(raw) <==>
        !(SpeakerOf(lines).Some? && |SpeakerOf(lines).value| > 30)
  {
    if raw == [] {
      NoLinesOfEmpty();
    }
    AdvancedLinesAgree(NonBlankLines(raw));
  }

  /** The previous speaker never changes the text and never overrides an explicit label; without
      a label it is carried over exactly when the text looks like a continuation, and
      otherwise there is no speaker. */
  lemma PreviousSpeakerRule(lines: seq<string>, prevSpeaker: Option<string>)
    ensures ParseAdvancedLines(lines, prevSpeaker).1 == ParseAdvancedLines(lines, None).1
    ensures ExplicitLabel(lines).Some? ==> ParseAdvancedLines(lines, prevSpeaker).0 == ExplicitLabel(lines)
    ensures lines != [] && ExplicitLabel(lines).None? && Named(prevSpeaker) ==>
      var r := ParseAdvancedLines(lines, prevSpeaker);
      && (r.0 == prevSpeaker <==> LooksLikeContinuation(r.1))
      && (r.0 != prevSpeaker ==> r.0 == None)
    ensures lines != [] && ExplicitLabel(lines).None? && !Named(prevSpeaker) ==>
      ParseAdvancedLines(lines, prevSpeaker).0 == None
  {
  }

  /** A line opening with a continuation word continues the previous speaker's turn. */
  lemma ContinuationExample()
    ensures LooksLikeContinuation("and so on")
  {
    assert "and so on" == "and" + [' '] + "so on";
    assert Lower("and") == "and";
    FirstWordOf("and", "so on");
  }

  /** The first word of a text that opens with a word and a space is that word, lower-cased. */
  lemma FirstWordOf(w: string, rest: string)
    requires w != [] && forall k :: 0 <= k < |w| ==> !IsSpace(w[k])
    ensures FirstWord(w + [' '] + rest) == Lower(w)
  {
    RunsOfWord(w, ' ', rest, c => !IsSpace(c));
  }

  // ---------------------------------------------------------------- detect_speaker_from_patterns

  /** `detect_speaker_from_patterns`: every branch of it declines to guess. */
  function DetectSpeakerFromPatterns(text: string, segmentIdx: int,
                                     contextWindow: Option<seq<(int, Option<string>)>>): (r: Option<string>)
    ensures r == None
  {
    None
  }

  // ---------------------------------------------------------------- validate_speaker_name

  /** `validate_speaker_name`, check by check. */
  function ValidateSpeakerName(name: string): bool {
    if name == [] then false
    else if !IsUpper(name[0]) then false
    else if !IsAlpha(RemoveChar(RemoveChar(name, ' '), '-')) then false
    else if |name| > 50 || |name| < 1 then false
    else true
  }

  /** A valid name is 1 to 50 characters of letters, spaces and hyphens, starting with an
      upper-case letter. */
  lemma ValidateSpeakerNameMeaning(name: string)
    ensures ValidateSpeakerName(name) <==>
      && 0 < |name| <= 50
      && IsUpper(name[0])
      && forall k :: 0 <= k < |name| ==> IsLetter(name[k]) || name[k] == ' ' || name[k] == '-'
  {
    if name != [] && IsUpper(name[0]) {
      var noSpaces := RemoveChar(name, ' ');
      var cleaned := RemoveChar(noSpaces, '-');
      if IsAlpha(cleaned) {
        forall k | 0 <= k < |name| && name[k] != ' ' && name[k] != '-' ensures IsLetter(name[k]) {
          assert name[k] in noSpaces;
          var j :| 0 <= j < |noSpaces| && noSpaces[j] == name[k];
          assert noSpaces[j] in cleaned;
        }
      }
      if forall k :: 0 <= k < |name| ==> IsLetter(name[k]) || name[k] == ' ' || name[k] == '-' {
        assert name[0] in noSpaces;
        var j :| 0 <= j < |noSpaces| && noSpaces[j] == name[0];
        assert noSpaces[j] in cleaned;
        forall k | 0 <= k < |cleaned| ensures IsLetter(cleaned[k]) {
          assert cleaned[k] in noSpaces;
          var j :| 0 <= j < |noSpaces| && noSpaces[j] == cleaned[k];
          assert noSpaces[j] in name;
        }
      }
    }
  }

  // ---------------------------------------------------------------- get_unique_speakers

  /** A speaker-count dictionary, in insertion order. */
  type Counts = seq<(string, nat)>

  predicate DistinctKeys(d: Counts) {
    forall i, j :: 0 <= i < j < |d| ==> d[i].0 != d[j].0
  }

  predicate HasKey(d: Counts, key: string) {
    exists k :: 0 <= k < |d| && d[k].0 == key
  }

  /** `speakers[s] = speakers.get(s, 0) + 1`: the entry for `s` counts one more, or a new
      entry for it comes last. */
  function Bump(d: Counts, s: string): (r: Counts)
    requires DistinctKeys(d)
    ensures HasKey(d, s) ==> |r| == |d|
    ensures !HasKey(d, s) ==> r == d + [(s, 1)]
    ensures forall k :: 0 <= k < |d| ==> r[k].0 == d[k].0 && r[k].1 == (if d[k].0 == s then d[k].1 + 1 else d[k].1)
  {
    if d == [] then [(s, 1)]
    else
      var tail := d[1..];
      TailDistinct(d);
      HasKeyTail(d, s);
      if d[0].0 == s then
        [(s, d[0].1 + 1)] + tail
      else
        [d[0]] + Bump(tail, s)
  }

  lemma TailDistinct(d: Counts)
    requires d != [] && DistinctKeys(d)
    ensures DistinctKeys(d[1..])
    ensures forall k :: 1 <= k < |d| ==> d[k].0 != d[0].0
  {
    var tail := d[1..];
    forall i, j | 0 <= i < j < |tail| ensures tail[i].0 != tail[j].0 {
      assert tail[i] == d[i + 1] && tail[j] == d[j + 1];
    }
  }

  lemma HasKeyTail(d: Counts, s: string)
    requires d != []
    ensures HasKey(d, s) <==> d[0].0 == s || HasKey(d[1..], s)
  {
    var tail := d[1..];
    if HasKey(d, s) && d[0].0 != s {
      var k :| 0 <= k < |d| && d[k].0 == s;
      assert tail[k - 1].0 == s;
    }
    if HasKey(tail, s) {
      var k :| 0 <= k < |tail| && tail[k].0 == s;
      assert d[k + 1].0 == s;
    }
  }

  /** Bumping keeps the keys distinct. */
  lemma BumpDistinct(d: Counts, s: string)
    requires DistinctKeys(d)
    ensures DistinctKeys(Bump(d, s))
  {
    var r := Bump(d, s);
    if HasKey(d, s) {
      forall i, j | 0 <= i < j < |r| ensures r[i].0 != r[j].0 {
        assert r[i].0 == d[i].0 && r[j].0 == d[j].0;
      }
    } else {
      forall i, j | 0 <= i < j < |r| ensures r[i].0 != r[j].0 {
        if j == |d| {
          assert r[i].0 == d[i].0;
        } else {
          assert r[i] == d[i] && r[j] == d[j];
        }
      }
    }
  }

  /** The counts `get_unique_speakers` builds from the segments' speakers. */
  function CountsOf(speakers: seq<Option<string>>): (d: Counts)
    ensures DistinctKeys(d)
  {
    if speakers == [] then []
    else
      var d := CountsOf(speakers[..|speakers| - 1]);
      var last := speakers[|speakers| - 1];
      if Named(last) then BumpDistinct(d, last.value); Bump(d, last.value) else d
  }

  /** How many segments have speaker `s`. */
  function Occurrences(speakers: seq<Option<string>>, s: string): nat {
    if speakers == [] then 0
    else Occurrences(speakers[..|speakers| - 1], s) + (if speakers[|speakers| - 1] == Some(s) then 1 else 0)
  }

  /** How many segments have a (non-empty) speaker, and how many do not. */
  function NamedCount(speakers: seq<Option<string>>): nat {
    if speakers == [] then 0
    else NamedCount(speakers[..|speakers| - 1]) + (if Named(speakers[|speakers| - 1]) then 1 else 0)
  }

  function UnnamedCount(speakers: seq<Option<string>>): nat {
    if speakers == [] then 0
    else UnnamedCount(speakers[..|speakers| - 1]) + (if Named(speakers[|speakers| - 1]) then 0 else 1)
  }

  function SumCounts(d: Counts): nat {
    if d == [] then 0 else d[0].1 + SumCounts(d[1..])
  }

  /** The keys are the non-empty speakers, once each, and each count is that speaker's number
      of segments. */
  lemma {:induction false} CountsMeaning(speakers: seq<Option<string>>)
    ensures var d := CountsOf(speakers);
      && DistinctKeys(d)
      && (forall k :: 0 <= k < |d| ==> d[k].0 != [] && d[k].1 == Occurrences(speakers, d[k].0) && d[k].1 > 0)
      && (forall s :: s != [] && Occurrences(speakers, s) > 0 ==> HasKey(d, s))
  {
    if speakers != [] {
      var init, last := speakers[..|speakers| - 1], speakers[|speakers| - 1];
      CountsMeaning(init);
      var d0 := CountsOf(init);
      if Named(last) {
        var d := Bump(d0, last.value);
        if !HasKey(d0, last.value) {
          forall k | 0 <= k < |d0| ensures d0[k].0 != last.value {
          }
          assert Occurrences(init, last.value) == 0;
          assert d[|d0|].0 == last.value;
        }
        forall s | s != [] && Occurrences(speakers, s) > 0 ensures HasKey(d, s) {
          if s != last.value {
            assert Occurrences(init, s) > 0;
            var k :| 0 <= k < |d0| && d0[k].0 == s;
            assert d[k].0 == s;
          } else if HasKey(d0, s) {
            var k :| 0 <= k < |d0| && d0[k].0 == s;
            assert d[k].0 == s;
          }
        }
        forall k | 0 <= k < |d| ensures d[k].0 != [] && d[k].1 == Occurrences(speakers, d[k].0) && d[k].1 > 0 {
          if k < |d0| {
            assert d[k].0 == d0[k].0;
          } else {
            assert d[k] == (last.value, 1);
            assert !HasKey(d0, last.value);
            assert Occurrences(init, last.value) == 0;
          }
        }
      } else {
        forall s | s != [] && Occurrences(speakers, s) > 0 ensures HasKey(d0, s) {
          assert Occurrences(init, s) > 0;
        }
      }
    }
  }

  /** A speaker occurs exactly when some segment has it. */
  lemma {:induction false} OccurrencesMeaning(speakers: seq<Option<string>>, s: string)
    ensures Occurrences(speakers, s) > 0 <==> exists q :: 0 <= q < |speakers| && speakers[q] == Some(s)
  {
    if speakers != [] {
      var init := speakers[..|speakers| - 1];
      OccurrencesMeaning(init, s);
      if exists q :: 0 <= q < |speakers| && speakers[q] == Some(s) {
        var q :| 0 <= q < |speakers| && speakers[q] == Some(s);
        if q < |init| {
          assert init[q] == Some(s);
        }
      }
      if exists q :: 0 <= q < |init| && init[q] == Some(s) {
        var q :| 0 <= q < |init| && init[q] == Some(s);
        assert speakers[q] == Some(s);
      }
    }
  }

  /** Every segment naming `b` comes after one naming `a`. */
  predicate SeenBefore(speakers: seq<Option<string>>, a: string, b: string) {
    forall p :: 0 <= p < |speakers| && speakers[p] == Some(b) ==>
      exists q :: 0 <= q < p && speakers[q] == Some(a)
  }

  /** The counts list the speakers in the order they first appear. */
  lemma {:induction false} CountsInFirstSeenOrder(speakers: seq<Option<string>>)
    ensures var d := CountsOf(speakers);
      forall i, j :: 0 <= i < j < |d| ==> SeenBefore(speakers, d[i].0, d[j].0)
  {
    if speakers != [] {
      var n := |speakers| - 1;
      var init, last := speakers[..n], speakers[n];
      assert speakers == init + [last];
      CountsInFirstSeenOrder(init);
      CountsMeaning(init);
      var d0, d := CountsOf(init), CountsOf(speakers);
      forall i, j | 0 <= i < j < |d| ensures SeenBefore(speakers, d[i].0, d[j].0) {
        var a, b := d[i].0, d[j].0;
        assert a == d0[i].0;
        OccurrencesMeaning(init, a);
        if j < |d0| {
          assert b == d0[j].0;
        } else {
          assert !HasKey(d0, last.value) && b == last.value;
          OccurrencesMeaning(init, b);
        }
        SeenBeforeSnoc(init, last, a, b);
      }
    }
  }

  /** A later segment keeps an order already established, once `a` has been seen. */
  lemma SeenBeforeSnoc(init: seq<Option<string>>, x: Option<string>, a: string, b: string)
    requires exists q :: 0 <= q < |init| && init[q] == Some(a)
    requires SeenBefore(init, a, b)
    ensures SeenBefore(init + [x], a, b)
  {
    var s := init + [x];
    var qa :| 0 <= qa < |init| && init[qa] == Some(a);
    forall p | 0 <= p < |s| && s[p] == Some(b)
      ensures exists q :: 0 <= q < p && s[q] == Some(a)
    {
      if p < |init| {
        assert init[p] == Some(b);
        var q :| 0 <= q < p && init[q] == Some(a);
        assert s[q] == Some(a);
      } else {
        assert s[qa] == Some(a);
      }
    }
  }

  /** The counts add up to the number of segments with a speaker. */
  lemma {:induction false} CountsTotal(speakers: seq<Option<string>>)
    ensures SumCounts(CountsOf(speakers)) == NamedCount(speakers)
  {
    if speakers != [] {
      var init, last := speakers[..|speakers| - 1], speakers[|speakers| - 1];
      CountsTotal(init);
      if Named(last) {
        BumpTotal(CountsOf(init), last.value);
      }
    }
  }

  lemma {:induction false} BumpTotal(d: Counts, s: string)
    requires DistinctKeys(d)
    ensures SumCounts(Bump(d, s)) == SumCounts(d) + 1
    decreases |d|
  {
    if d != [] && d[0].0 != s {
      var tail := d[1..];
      TailDistinct(d);
      BumpTotal(tail, s);
      assert Bump(d, s) == [d[0]] + Bump(tail, s);
      assert ([d[0]] + Bump(tail, s))[1..] == Bump(tail, s);
    }
  }

  /** Every segment is counted as having a speaker or not having one. */
  lemma {:induction false} NamedPlusUnnamed(speakers: seq<Option<string>>)
    ensures NamedCount(speakers) + UnnamedCount(speakers) == |speakers|
  {
    if speakers != [] {
      NamedPlusUnnamed(speakers[..|speakers| - 1]);
    }
  }

  /** `get_unique_speakers`: one pass counting each non-empty speaker. */
  method GetUniqueSpeakers(speakers: seq<Option<string>>) returns (counts: Counts)
    ensures counts == CountsOf(speakers)
  {
    counts := [];
    for i := 0 to |speakers|
      invariant counts == CountsOf(speakers[..i])
    {
      var speaker := speakers[i];
      assert speakers[..i + 1][..i] == speakers[..i];
      if speaker.Some? && speaker.value != [] {
        counts := Bump(counts, speaker.value);
      }
    }
    assert speakers[..|speakers|] == speakers;
  }

  // ---------------------------------------------------------------- get_speaker_statistics

  /** The index `max(..., key=count)` picks: the first entry with the largest count. */
  function MaxIndex(d: Counts): (i: nat)
    requires d != []
    ensures i < |d|
    ensures forall k :: 0 <= k < |d| ==> d[k].1 <= d[i].1
    ensures forall k :: 0 <= k < i ==> d[k].1 < d[i].1
  {
    if |d| == 1 then 0
    else
      var best := MaxIndex(d[..|d| - 1]);
      if d[|d| - 1].1 > d[best].1 then |d| - 1 else best
  }

  function Keys(d: Counts): (r: seq<string>)
    ensures |r| == |d| && forall k :: 0 <= k < |d| ==> r[k] == d[k].0
  {
    if d == [] then [] else Keys(d[..|d| - 1]) + [d[|d| - 1].0]
  }

  datatype SpeakerStatistics = SpeakerStatistics(
    totalSegments: nat,
    segmentsWithSpeakers: nat,
    segmentsWithoutSpeakers: nat,
    uniqueSpeakers: seq<string>,
    speakerCounts: Counts,
    hasMultipleSpeakers: bool,
    primarySpeaker: Option<string>)

  /** `get_speaker_statistics`. */
  function GetSpeakerStatistics(speakers: seq<Option<string>>): SpeakerStatistics {
    var d := CountsOf(speakers);
    SpeakerStatistics(
      |speakers|,
      NamedCount(speakers),
      UnnamedCount(speakers),
      Keys(d),
      d,
      |d| > 1,
      if d != [] then Some(d[MaxIndex(d)].0) else None)
  }

  /** The statistics split the segments into those with and without a speaker, the counts sum
      to the former, and the primary speaker is one with the most segments, present exactly
      when some segment has a speaker; among speakers with as many segments it is the one
      that appeared first (the counts keep first-appearance order, `CountsInFirstSeenOrder`). */
  lemma SpeakerStatisticsMeaning(speakers: seq<Option<string>>)
    ensures var st := GetSpeakerStatistics(speakers);
      && st.segmentsWithSpeakers + st.segmentsWithoutSpeakers == st.totalSegments == |speakers|
      && SumCounts(st.speakerCounts) == st.segmentsWithSpeakers
      && (st.hasMultipleSpeakers <==> |st.uniqueSpeakers| > 1)
      && (st.primarySpeaker.None? <==> st.segmentsWithSpeakers == 0)
      && (st.primarySpeaker.Some? ==>
            exists i :: 0 <= i < |st.speakerCounts| && st.speakerCounts[i].0 == st.primarySpeaker.value
              && (forall k :: 0 <= k < |st.speakerCounts| ==> st.speakerCounts[k].1 <= st.speakerCounts[i].1)
              && (forall k :: 0 <= k < i ==> st.speakerCounts[k].1 < st.speakerCounts[i].1))
  {
    NamedPlusUnnamed(speakers);
    CountsTotal(speakers);
    var d := CountsOf(speakers);
    if d != [] {
      CountsMeaning(speakers);
      assert d[0].1 > 0;
      assert SumCounts(d) > 0 by { SumPositive(d); }
    }
  }

  lemma {:induction false} SumPositive(d: Counts)
    requires d != [] && forall k :: 0 <= k < |d| ==> d[k].1 > 0
    ensures SumCounts(d) > 0
  {
  }

  // ---------------------------------------------------------------- SpeakerContext

  /** Python's slice bound: a negative index counts from the end, then clamps to the sequence. */
  function SliceBound(i: int, n: nat): (r: nat)
    ensures r <= n
  {
    if i < 0 then (if i + n < 0 then 0 else i + n) else if i > n then n else i
  }

  /** Python's `s[start:end]`. */
  function PySlice<T>(s: seq<T>, start: int, end: int): seq<T> {
    var lo, hi := SliceBound(start, |s|), SliceBound(end, |s|);
    if lo < hi then s[lo..hi] else []
  }

  datatype LookupError = IndexError

  /** The speakers seen in a history. */
  function SeenIn(history: seq<(int, Option<string>)>): set<string> {
    set i | 0 <= i < |history| && Named(history[i].1) :: history[i].1.value
  }

  /** The latest non-empty speaker in a history. */
  function LastSpeaker(history: seq<(int, Option<string>)>): Option<string> {
    if history == [] then None
    else if Named(history[|history| - 1].1) then history[|history| - 1].1
    else LastSpeaker(history[..|history| - 1])
  }

  /** The last speaker is the speaker of the latest entry that has one, and there is none
      exactly when no entry has one. */
  lemma {:induction false} LastSpeakerMeaning(history: seq<(int, Option<string>)>)
    ensures LastSpeaker(history).None? <==> forall i :: 0 <= i < |history| ==> !Named(history[i].1)
    ensures LastSpeaker(history).Some? ==>
      exists i :: 0 <= i < |history| && history[i].1 == LastSpeaker(history) && Named(history[i].1)
        && forall j :: i < j < |history| ==> !Named(history[j].1)
  {
    if history != [] {
      var init := history[..|history| - 1];
      LastSpeakerMeaning(init);
      forall i | 0 <= i < |init| ensures init[i] == history[i] {
      }
    }
  }

  /** `SpeakerContext`: the (index, speaker) history and the set of speakers seen. */
  class SpeakerContext {
    var history: seq<(int, Option<string>)>
    var speakersSeen: set<string>

    /** The set holds exactly the speakers of the history. */
    ghost predicate Valid()
      reads this
    {
      speakersSeen == SeenIn(history)
    }

    constructor ()
      ensures Valid() && history == [] && speakersSeen == {}
    {
      history := [];
      speakersSeen := {};
    }

    /** `add_segment`: one more history entry; a non-empty speaker joins the set. */
    method AddSegment(idx: int, speaker: Option<string>)
      requires Valid()
      modifies this
      ensures Valid()
      ensures history == old(history) + [(idx, speaker)]
      ensures speakersSeen == old(speakersSeen) + (if Named(speaker) then {speaker.value} else {})
      ensures LastSpeaker(history) == if Named(speaker) then speaker else old(LastSpeaker(history))
    {
      ghost var h0 := history;
      history := history + [(idx, speaker)];
      if speaker.Some? && speaker.value != [] {
        speakersSeen := speakersSeen + {speaker.value};
      }
      assert history[..|history| - 1] == h0;
      forall s ensures s in SeenIn(history) <==> s in SeenIn(h0) + (if Named(speaker) then {speaker.value} else {}) {
        if s in SeenIn(history) {
          var i :| 0 <= i < |history| && Named(history[i].1) && history[i].1.value == s;
          if i < |h0| {
            assert h0[i] == history[i];
          }
        }
        if s in SeenIn(h0) {
          var i :| 0 <= i < |h0| && Named(h0[i].1) && h0[i].1.value == s;
          assert history[i] == h0[i];
        }
        if Named(speaker) && s == speaker.value {
          assert history[|h0|].1 == speaker;
        }
      }
    }

    /** `get_context_window`: the entries from `center - size` to `center + size`, clipped to
      the history, with Python's slicing rules for the bounds. */
    function GetContextWindow(centerIdx: int, windowSize: int): (r: seq<(int, Option<string>)>)
      reads this
      ensures var lo := if centerIdx - windowSize > 0 then centerIdx - windowSize else 0;
        var hi := if |history| < centerIdx + windowSize + 1 then |history| else centerIdx + windowSize + 1;
        && (0 <= lo < hi ==> r == history[lo..hi])
        && (0 <= hi <= lo ==> r == [])
        && (hi < 0 ==> r == if lo < |history| + hi then history[lo..|history| + hi] else [])
        && (windowSize >= 0 ==> |r| <= 2 * windowSize + 1 || hi < 0)
        && (windowSize >= 0 && 0 <= centerIdx < |history| ==> |r| > centerIdx - lo && r[centerIdx - lo] == history[centerIdx])
    {
      var start := if centerIdx - windowSize > 0 then centerIdx - windowSize else 0;
      var end := if |history| < centerIdx + windowSize + 1 then |history| else centerIdx + windowSize + 1;
      PySlice(history, start, end)
    }

    /** A window whose end falls before the start of the history wraps round as a negative
        Python index: with 10 entries, centre -10 and size 5 the slice is `history[0:-4]`,
        the first six entries. */
    lemma ContextWindowWraps()
      requires |history| == 10
      ensures GetContextWindow(-10, 5) == history[..6]
    {
    }

    /** A window entirely past the end of the history is empty. */
    lemma ContextWindowPastEnd(centerIdx: int, windowSize: int)
      requires windowSize >= 0 && centerIdx - windowSize >= |history|
      ensures GetContextWindow(centerIdx, windowSize) == []
    {
    }

    /** `get_last_speaker`: scans the history from the end. */
    method GetLastSpeaker() returns (speaker: Option<string>)
      ensures speaker == LastSpeaker(history)
    {
      var i := |history|;
      assert history[..i] == history;
      while i > 0
        invariant 0 <= i <= |history|
        invariant LastSpeaker(history) == LastSpeaker(history[..i])
      {
        var entry := history[i - 1];
        assert history[..i][..i - 1] == history[..i - 1];
        if entry.1.Some? && entry.1.value != [] {
          return entry.1;
        }
        i := i - 1;
      }
      return None;
    }

    /** `get_speaker_at_index`: the entry's speaker for an index below the history's length
        (negative ones counting from the end), None past the end, and an `IndexError` for a
        negative index beyond the start. */
    function GetSpeakerAtIndex(idx: int): (r: Result<Option<string>, LookupError>)
      reads this
      ensures r.Failure? <==> idx < -|history|
      ensures 0 <= idx < |history| ==> r == Success(history[idx].1)
      ensures -|history| <= idx < 0 ==> r == Success(history[|history| + idx].1)
      ensures idx >= |history| ==> r == Success(None)
    {
      if idx < |history| then
        if idx >= 0 then Success(history[idx].1)
        else if idx >= -|history| then Success(history[|history| + idx].1)
        else Failure(IndexError)
      else Success(None)
    }

    /** `clear`. */
    method Clear()
      modifies this
      ensures Valid() && history == [] && speakersSeen == {}
    {
      history := [];
      speakersSeen := {};
    }
  }
}
